/**
 Which files a walk of a directory tree lists, under hooks, ignored paths and
 hidden files.
 */
module FileTree {
  import opened Paths
  import opened Poll

  /** A hook accepts a file or asks to skip it. */
  type Hook = (FileInfo, string) -> bool

  datatype Rules = Rules(hooks: seq<Hook>, ignored: set<string>, ignoreHidden: bool)

  /** A file, or a directory with its entries. */
  datatype Node = Node(info: FileInfo, children: seq<Node>)

  predicate Blocked(r: Rules, path: string) {
    path in r.ignored || (r.ignoreHidden && IsHiddenFile(path))
  }

  predicate Accepted(r: Rules, info: FileInfo, path: string) {
    forall i | 0 <= i < |r.hooks| :: r.hooks[i](info, path)
  }

  /** `filepath.Walk` with the callback of `listRecursive`: a skipped directory
      is still descended into, an ignored one is not. */
  function Walk(r: Rules, path: string, node: Node): Files
    decreases node, 1
  {
    if !Accepted(r, node.info, path) then Descend(r, path, node)
    else if Blocked(r, path) then map[]
    else map[path := node.info] + Descend(r, path, node)
  }

  function Descend(r: Rules, path: string, node: Node): Files
    decreases node, 0
  {
    if node.info.isDir then WalkAll(r, path, node.children) else map[]
  }

  function WalkAll(r: Rules, dir: string, nodes: seq<Node>): Files
    decreases nodes, 0
  {
    if nodes == [] then map[]
    else Walk(r, Join(dir, nodes[0].info.name), nodes[0]) + WalkAll(r, dir, nodes[1..])
  }

  /** A file of the tree with the directories above it, from the root down. */
  datatype Entry = Entry(path: string, info: FileInfo, above: seq<(string, FileInfo)>)

  /** All files of the tree, whatever the rules. */
  function Entries(path: string, node: Node, above: seq<(string, FileInfo)>): set<Entry>
    decreases node, 1
  {
    {Entry(path, node.info, above)}
    + if node.info.isDir then EntriesOfAll(path, node.children, above + [(path, node.info)]) else {}
  }

  function EntriesOfAll(dir: string, nodes: seq<Node>, above: seq<(string, FileInfo)>): set<Entry>
    decreases nodes, 0
  {
    if nodes == [] then {}
    else Entries(Join(dir, nodes[0].info.name), nodes[0], above) + EntriesOfAll(dir, nodes[1..], above)
  }

  /** The walk does not go below an accepted directory that is blocked. */
  predicate Stops(r: Rules, dir: (string, FileInfo)) {
    Accepted(r, dir.1, dir.0) && Blocked(r, dir.0)
  }

  predicate Listed(r: Rules, e: Entry) {
    && Accepted(r, e.info, e.path) && !Blocked(r, e.path)
    && forall i | 0 <= i < |e.above| :: !Stops(r, e.above[i])
  }

  lemma {:induction false} EntriesKeepAbove(path: string, node: Node, above: seq<(string, FileInfo)>)
    ensures forall e | e in Entries(path, node, above) :: above <= e.above
    decreases node, 1
  {
    if node.info.isDir {
      EntriesOfAllKeepAbove(path, node.children, above + [(path, node.info)]);
    }
  }

  lemma {:induction false} EntriesOfAllKeepAbove(dir: string, nodes: seq<Node>, above: seq<(string, FileInfo)>)
    ensures forall e | e in EntriesOfAll(dir, nodes, above) :: above <= e.above
    decreases nodes, 0
  {
    if nodes != [] {
      EntriesKeepAbove(Join(dir, nodes[0].info.name), nodes[0], above);
      EntriesOfAllKeepAbove(dir, nodes[1..], above);
    }
  }

  /** `files` holds exactly the listed entries, each path with the information
      of one of them. */
  ghost predicate Holds(r: Rules, files: Files, entries: set<Entry>) {
    && (forall e | e in entries && Listed(r, e) :: e.path in files)
    && (forall p | p in files :: exists e :: e in entries && Listed(r, e) && e.path == p && e.info == files[p])
  }

  lemma HoldsSum(r: Rules, a: Files, b: Files, x: set<Entry>, y: set<Entry>)
    requires Holds(r, a, x) && Holds(r, b, y)
    ensures Holds(r, a + b, x + y)
  {
    forall p | p in a + b
      ensures exists e :: e in x + y && Listed(r, e) && e.path == p && e.info == (a + b)[p]
    {
      if p in b {
        var e :| e in y && Listed(r, e) && e.path == p && e.info == b[p];
        assert e in x + y;
      } else {
        var e :| e in x && Listed(r, e) && e.path == p && e.info == a[p];
        assert e in x + y;
      }
    }
  }

  predicate NoneStops(r: Rules, above: seq<(string, FileInfo)>) {
    forall i | 0 <= i < |above| :: !Stops(r, above[i])
  }

  lemma {:induction false} WalkHolds(r: Rules, path: string, node: Node, above: seq<(string, FileInfo)>)
    requires NoneStops(r, above)
    ensures Holds(r, Walk(r, path, node), Entries(path, node, above))
    decreases node, 1
  {
    var self, here := Entry(path, node.info, above), above + [(path, node.info)];
    var below := if node.info.isDir then EntriesOfAll(path, node.children, here) else {};
    if Stops(r, (path, node.info)) {
      if node.info.isDir { EntriesOfAllKeepAbove(path, node.children, here); }
      forall e | e in Entries(path, node, above) ensures !Listed(r, e) {
        if e != self { assert e.above[|above|] == here[|above|]; }
      }
    } else {
      if node.info.isDir { WalkAllHolds(r, path, node.children, here); }
      var files := if Accepted(r, node.info, path) then map[path := node.info] else map[];
      assert Listed(r, self) <==> Accepted(r, node.info, path);
      assert Holds(r, files, {self});
      assert Holds(r, Descend(r, path, node), below);
      HoldsSum(r, files, Descend(r, path, node), {self}, below);
      assert map[] + Descend(r, path, node) == Descend(r, path, node);
    }
  }

  lemma {:induction false} WalkAllHolds(r: Rules, dir: string, nodes: seq<Node>, above: seq<(string, FileInfo)>)
    requires NoneStops(r, above)
    ensures Holds(r, WalkAll(r, dir, nodes), EntriesOfAll(dir, nodes, above))
    decreases nodes, 0
  {
    if nodes != [] {
      var path := Join(dir, nodes[0].info.name);
      WalkHolds(r, path, nodes[0], above);
      WalkAllHolds(r, dir, nodes[1..], above);
      HoldsSum(r, Walk(r, path, nodes[0]), WalkAll(r, dir, nodes[1..]),
               Entries(path, nodes[0], above), EntriesOfAll(dir, nodes[1..], above));
    }
  }

  /** A path is listed if and only if the tree has a file there that every hook
      accepts, that is not blocked, and that has no directory above it, the root
      included, which is both accepted and blocked. */
  lemma WalkListsExactly(r: Rules, root: string, node: Node, path: string)
    ensures path in Walk(r, root, node) <==>
      exists e :: e in Entries(root, node, []) && e.path == path && Passes(r, path, e.info)
        && forall i | 0 <= i < |e.above| :: !(Accepted(r, e.above[i].1, e.above[i].0) && Blocked(r, e.above[i].0))
    ensures path in Walk(r, root, node) ==>
      exists e :: e in Entries(root, node, []) && e.path == path && Listed(r, e) && e.info == Walk(r, root, node)[path]
  {
    WalkHolds(r, root, node, []);
  }

  /** Every hook accepts the file, and its path is neither ignored nor, where
      hidden files are, hidden. */
  predicate Passes(r: Rules, path: string, info: FileInfo) {
    && (forall i | 0 <= i < |r.hooks| :: r.hooks[i](info, path))
    && path !in r.ignored && !(r.ignoreHidden && Base(path) != "" && Base(path)[0] == '.')
  }

  lemma WalkNeverBlocked(r: Rules, root: string, node: Node)
    ensures forall p | p in Walk(r, root, node) :: !Blocked(r, p)
  {
    WalkHolds(r, root, node, []);
  }

  /** `list`: the named file or directory itself, and for a directory its
      entries that are not blocked and that every hook accepts. */
  function Flat(r: Rules, name: string, node: Node): Files {
    map[name := node.info] + if node.info.isDir then FlatEntries(r, name, node.children) else map[]
  }

  function FlatEntries(r: Rules, dir: string, nodes: seq<Node>): Files {
    if nodes == [] then map[]
    else
      var last := nodes[|nodes| - 1];
      var path := Join(dir, last.info.name);
      var rest := FlatEntries(r, dir, nodes[..|nodes| - 1]);
      if !Blocked(r, path) && Accepted(r, last.info, path) then rest[path := last.info] else rest
  }

  /** Entry `i` of the directory has this path and may be listed. */
  predicate MayList(r: Rules, dir: string, nodes: seq<Node>, i: int, path: string) {
    && 0 <= i < |nodes| && path == Join(dir, nodes[i].info.name)
    && !Blocked(r, path) && Accepted(r, nodes[i].info, path)
  }

  /** `list` shows exactly the entries that are not blocked and that every hook
      accepts. */
  lemma {:induction false} FlatListsExactly(r: Rules, dir: string, nodes: seq<Node>, path: string)
    ensures path in FlatEntries(r, dir, nodes) <==> exists i :: MayList(r, dir, nodes, i, path)
  {
    if nodes != [] {
      var n := |nodes| - 1;
      FlatListsExactly(r, dir, nodes[..n], path);
      LastMayList(r, dir, nodes, path);
      var last := Join(dir, nodes[n].info.name);
      assert MayList(r, dir, nodes, n, path) <==> path == last && !Blocked(r, last) && Accepted(r, nodes[n].info, last);
    }
  }

  lemma LastMayList(r: Rules, dir: string, nodes: seq<Node>, path: string)
    requires nodes != []
    ensures var n := |nodes| - 1;
      (exists i :: MayList(r, dir, nodes, i, path)) <==>
      (MayList(r, dir, nodes, n, path) || exists i :: MayList(r, dir, nodes[..n], i, path))
  {
    var n := |nodes| - 1;
    forall i | 0 <= i < n ensures MayList(r, dir, nodes[..n], i, path) <==> MayList(r, dir, nodes, i, path) {
    }
    if i :| MayList(r, dir, nodes, i, path) {
      assert i == n || MayList(r, dir, nodes[..n], i, path);
    }
    if i :| MayList(r, dir, nodes[..n], i, path) {
      assert MayList(r, dir, nodes, i, path);
    }
  }

  /** `list` shows the named file itself, whatever the rules, and of a directory
      exactly the entries that pass them. */
  lemma FlatShowsExactly(r: Rules, name: string, node: Node, path: string)
    ensures path in Flat(r, name, node) <==>
      (path == name
       || (node.info.isDir && exists n | n in node.children :: path == Join(name, n.info.name) && Passes(r, path, n.info)))
  {
    FlatListsExactly(r, name, node.children, path);
    if i :| MayList(r, name, node.children, i, path) {
      assert node.children[i] in node.children && Passes(r, path, node.children[i].info);
    }
    if n :| n in node.children && path == Join(name, n.info.name) && Passes(r, path, n.info) {
      var i :| 0 <= i < |node.children| && node.children[i] == n;
      assert MayList(r, name, node.children, i, path);
    }
  }

  lemma FlatBlocksOnlyName(r: Rules, name: string, node: Node)
    ensures forall p | p in Flat(r, name, node) :: p == name || !Blocked(r, p)
  {
    forall p | p in FlatEntries(r, name, node.children) ensures !Blocked(r, p) {
      FlatListsExactly(r, name, node.children, p);
    }
  }

  // ------------------------------------------------------------------- names

  /** A directory's entries have non-empty names without a slash. */
  predicate WellNamed(node: Node) {
    forall i | 0 <= i < |node.children| :: IsEntryName(node.children[i].info.name) && WellNamed(node.children[i])
  }

  predicate AllWellNamed(nodes: seq<Node>) {
    forall i | 0 <= i < |nodes| :: IsEntryName(nodes[i].info.name) && WellNamed(nodes[i])
  }

  ghost predicate Named(files: Files) {
    forall p | p in files :: files[p].name == Base(p)
  }

  lemma {:induction false} EntriesAreNamed(path: string, node: Node, above: seq<(string, FileInfo)>)
    requires IsClean(path) && node.info.name == Base(path) && WellNamed(node)
    ensures forall e | e in Entries(path, node, above) :: e.info.name == Base(e.path)
    decreases node, 1
  {
    if node.info.isDir {
      EntriesOfAllAreNamed(path, node.children, above + [(path, node.info)]);
    }
  }

  lemma {:induction false} EntriesOfAllAreNamed(dir: string, nodes: seq<Node>, above: seq<(string, FileInfo)>)
    requires IsClean(dir) && AllWellNamed(nodes)
    ensures forall e | e in EntriesOfAll(dir, nodes, above) :: e.info.name == Base(e.path)
    decreases nodes, 0
  {
    if nodes != [] {
      JoinRoundTrip(dir, nodes[0].info.name);
      EntriesAreNamed(Join(dir, nodes[0].info.name), nodes[0], above);
      EntriesOfAllAreNamed(dir, nodes[1..], above);
    }
  }

  /** Every path a walk lists carries the information of a file of that name. */
  lemma WalkIsNamed(r: Rules, root: string, node: Node)
    requires IsClean(root) && node.info.name == Base(root) && WellNamed(node)
    ensures Named(Walk(r, root, node))
  {
    WalkHolds(r, root, node, []);
    EntriesAreNamed(root, node, []);
  }

  lemma {:induction false} FlatEntriesAreNamed(r: Rules, dir: string, nodes: seq<Node>)
    requires IsClean(dir) && AllWellNamed(nodes)
    ensures Named(FlatEntries(r, dir, nodes))
  {
    if nodes != [] {
      var n := |nodes| - 1;
      FlatEntriesAreNamed(r, dir, nodes[..n]);
      JoinRoundTrip(dir, nodes[n].info.name);
    }
  }

  lemma FlatIsNamed(r: Rules, name: string, node: Node)
    requires IsClean(name) && node.info.name == Base(name) && WellNamed(node)
    ensures Named(Flat(r, name, node))
  {
    FlatEntriesAreNamed(r, name, node.children);
  }
}
