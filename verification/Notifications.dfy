/**
 From the watcher to the controller: which reconciliations one cycle of the
 operator's watcher causes.
 */
module Notifications {
  import opened Text
  import opened Paths
  import opened Poll
  import opened FileTree
  import opened Replay
  import opened Watching
  import opened Cluster
  import opened Fsclient
  import opened Reconciliation
  import opened Reconciler

  /** The event handler reconciles for write events of directories only. */
  predicate CausesReconcile(e: Event) {
    e.op == Write && e.info.isDir
  }

  function ReconcileNames(evts: seq<Event>): seq<string> {
    if evts == [] then []
    else
      var rest, last := ReconcileNames(evts[..|evts| - 1]), evts[|evts| - 1];
      if CausesReconcile(last) then rest + [last.info.name] else rest
  }

  /** A directory in both snapshots whose modification time changed. */
  predicate Touched(was: Files, now: Files, p: string) {
    p in was && p in now && now[p].isDir && was[p].modTime != now[p].modTime
  }

  function TouchedIn(was: Files, now: Files, order: seq<string>): seq<string>
    ensures forall p | p in TouchedIn(was, now, order) :: Touched(was, now, p)
  {
    if order == [] then []
    else
      var rest, last := TouchedIn(was, now, order[..|order| - 1]), order[|order| - 1];
      if Touched(was, now, last) then rest + [last] else rest
  }

  function NamesIn(now: Files, paths: seq<string>): seq<string>
    requires forall p | p in paths :: p in now
  {
    seq(|paths|, i requires 0 <= i < |paths| => now[paths[i]].name)
  }

  function BaseNames(paths: seq<string>): seq<string> {
    seq(|paths|, i requires 0 <= i < |paths| => Base(paths[i]))
  }

  const CONTROLLER_OPS: set<Op> := {Create, Write}

  lemma {:induction false} NamesSum(a: seq<Event>, b: seq<Event>)
    ensures ReconcileNames(a + b) == ReconcileNames(a) + ReconcileNames(b)
  {
    if b == [] {
      assert a + b == a;
    } else {
      assert (a + b)[..|a + b| - 1] == a + b[..|b| - 1];
      NamesSum(a, b[..|b| - 1]);
    }
  }

  lemma {:induction false} NoNames(evts: seq<Event>)
    requires forall e | e in evts :: !CausesReconcile(e)
    ensures ReconcileNames(evts) == []
  {
    if evts != [] {
      NoNames(evts[..|evts| - 1]);
    }
  }

  /** The filter keeps every event that matters to the handler. */
  lemma {:induction false} FilterKeepsNames(evts: seq<Event>)
    ensures ReconcileNames(Filtered(evts, CONTROLLER_OPS)) == ReconcileNames(evts)
  {
    if evts != [] {
      var n := |evts| - 1;
      FilterKeepsNames(evts[..n]);
      var rest := Filtered(evts[..n], CONTROLLER_OPS);
      assert (rest + [evts[n]])[..|rest|] == rest;
    }
  }

  lemma NamesOfChanges(p: string, a: FileInfo, b: FileInfo)
    ensures ReconcileNames(Changes(p, a, b)) == if b.isDir && a.modTime != b.modTime then [b.name] else []
  {
    var w := if a.modTime != b.modTime then [Event(Write, p, p, b)] else [];
    var c := if a.mode != b.mode then [Event(Chmod, p, p, b)] else [];
    NamesSum(w, c);
    NoNames(c);
    assert w != [] ==> w[..0] == [];
  }

  lemma {:induction false} NamesOfAllChanges(was: Files, now: Files, order: seq<string>)
    requires forall p | p in order :: p in Common(was, now)
    ensures ReconcileNames(ChangesInOrder(was, now, order)) == NamesIn(now, TouchedIn(was, now, order))
  {
    if order != [] {
      var n := |order| - 1;
      var p := order[n];
      assert p in order;
      NamesOfAllChanges(was, now, order[..n]);
      NamesSum(ChangesInOrder(was, now, order[..n]), Changes(p, was[p], now[p]));
      NamesOfChanges(p, was[p], now[p]);
    }
  }

  /** One cycle of the operator's watcher asks for exactly one reconciliation for
      each directory in both snapshots whose modification time changed, by the
      name of that directory.  A crontab rewritten in place, which leaves its
      directory's time alone, asks for none. */
  lemma OneReconcilePerTouchedDirectory(was: Files, now: Files, ph: Phases)
    requires IsEmission(was, now, ph)
    ensures var touched := TouchedIn(was, now, ph.order);
      && ReconcileNames(Capped(Filtered(Emitted(was, now, ph), CONTROLLER_OPS), 0)) == NamesIn(now, touched)
      && multiset(touched) == multiset(set p | p in now && Touched(was, now, p))
  {
    OrderIsCommon(was, now, ph.order);
    var w := ChangesInOrder(was, now, ph.order);
    FilterKeepsNames(Emitted(was, now, ph));
    NamesSum(w + ph.moves + ph.creates, ph.removes);
    NamesSum(w + ph.moves, ph.creates);
    NamesSum(w, ph.moves);
    NamesOfAllChanges(was, now, ph.order);
    LaterPhasesAreSilent(was, now, ph);
    TouchedOnce(was, now, ph.order);
  }

  /** A cycle asks for nothing if and only if it touched no directory. */
  lemma NothingAsked(was: Files, now: Files, ph: Phases)
    requires IsEmission(was, now, ph)
    ensures ReconcileNames(Capped(Filtered(Emitted(was, now, ph), CONTROLLER_OPS), 0)) == []
      <==> forall p | p in now :: !Touched(was, now, p)
  {
    OneReconcilePerTouchedDirectory(was, now, ph);
    var order := TouchedIn(was, now, ph.order);
    assert |order| == |multiset(order)| == |set p | p in now && Touched(was, now, p)|;
    if p :| p in now && Touched(was, now, p) {
      assert p in multiset(order) && p in order;
    }
  }

  const BEFORE_REWRITE: Files := map["/u" := FileInfo("u", true, 1, 0, 5), "/u/f" := FileInfo("f", false, 1, 0, 6)]
  const AFTER_REWRITE: Files := map["/u" := FileInfo("u", true, 1, 0, 5), "/u/f" := FileInfo("f", false, 2, 0, 6)]

  /** A crontab `/u/f` rewritten in place at time 2 is seen to change and asks
      for no reconciliation. */
  lemma RewriteInPlaceIsMissed(ph: Phases)
    requires IsEmission(BEFORE_REWRITE, AFTER_REWRITE, ph)
    ensures Altered(BEFORE_REWRITE, AFTER_REWRITE, "/u/f")
    ensures ReconcileNames(Capped(Filtered(Emitted(BEFORE_REWRITE, AFTER_REWRITE, ph), CONTROLLER_OPS), 0)) == []
  {
    var was, now := BEFORE_REWRITE, AFTER_REWRITE;
    var u, f := "/u", "/u/f";
    assert |u| != |f| && was[u] == now[u] && was[f].modTime != now[f].modTime && !now[f].isDir;
    NothingAsked(was, now, ph);
    assert forall p | p in now :: !Touched(was, now, p);
  }

  lemma LaterPhasesAreSilent(was: Files, now: Files, ph: Phases)
    requires IsEmission(was, now, ph)
    ensures ReconcileNames(ph.moves) == ReconcileNames(ph.creates) == ReconcileNames(ph.removes) == []
  {
    forall e | e in ph.moves ensures !CausesReconcile(e) {
      assert IsMove(was, now, e);
    }
    NoNames(ph.moves);
    NoNames(ph.creates);
    NoNames(ph.removes);
  }

  lemma {:induction false} TouchedCount(was: Files, now: Files, order: seq<string>, p: string)
    ensures multiset(TouchedIn(was, now, order))[p] == if Touched(was, now, p) then multiset(order)[p] else 0
  {
    if order != [] {
      var n := |order| - 1;
      TouchedCount(was, now, order[..n], p);
      assert order == order[..n] + [order[n]];
    }
  }

  lemma TouchedOnce(was: Files, now: Files, order: seq<string>)
    requires multiset(order) == multiset(Common(was, now))
    ensures multiset(TouchedIn(was, now, order)) == multiset(set p | p in now && Touched(was, now, p))
  {
    forall p ensures multiset(TouchedIn(was, now, order))[p] == multiset(set q | q in now && Touched(was, now, q))[p] {
      TouchedCount(was, now, order, p);
    }
  }

  lemma {:induction false} RunSum(op: Operator, s: State, a: seq<Step>, b: seq<Step>)
    requires Legal(op, s, a) && Legal(op, Run(op, s, a), b)
    ensures Legal(op, s, a + b) && Run(op, s, a + b) == Run(op, Run(op, s, a), b)
    decreases |a|
  {
    if a == [] {
      assert a + b == b;
    } else {
      assert (a + b)[1..] == a[1..] + b;
      RunSum(op, Next(op, s, a[0]), a[1..], b);
    }
  }

  /** One reconciliation made by the handler: for whom, whether the listing
      worked, and its steps. */
  datatype Served = Served(user: string, listed: bool, log: seq<Step>)

  function UsersOf(served: seq<Served>): seq<string> {
    seq(|served|, i requires 0 <= i < |served| => served[i].user)
  }

  function StepsOf(served: seq<Served>): seq<Step> {
    if served == [] then [] else StepsOf(served[..|served| - 1]) + served[|served| - 1].log
  }

  /** A complete reconciliation, its creations before its deletions. */
  ghost predicate IsComplete(op: Operator, s: State, one: Served) {
    && ReconcileRun(op, s, one.user, one.listed, one.log)
    && InOrder(one.user, EntriesIn(op, s, one.user), ToMake(op, s, one.user, one.listed), one.log[2..], false)
  }

  /** Complete reconciliations, each from the state the one before it left. */
  ghost predicate AllServed(op: Operator, s: State, served: seq<Served>) {
    served == [] ||
    var n := |served| - 1;
    && AllServed(op, s, served[..n]) && Legal(op, s, StepsOf(served[..n]))
    && IsComplete(op, Run(op, s, StepsOf(served[..n])), served[n])
  }

  /** What has been served, one run of the state machine, has led here. */
  ghost predicate ServedTo(op: Operator, s: State, served: seq<Served>, now: State) {
    AllServed(op, s, served) && Legal(op, s, StepsOf(served)) && Run(op, s, StepsOf(served)) == now
  }

  lemma OneMoreServed(op: Operator, s: State, served: seq<Served>, now: State, one: Served)
    requires ServedTo(op, s, served, now) && IsComplete(op, now, one)
    ensures ServedTo(op, s, served + [one], Run(op, now, one.log))
    ensures UsersOf(served + [one]) == UsersOf(served) + [one.user]
  {
    var more := served + [one];
    assert more[..|served|] == served && more[|served|] == one;
    assert StepsOf(more) == StepsOf(served) + one.log;
    assert AllServed(op, s, more);
    RunSum(op, s, StepsOf(served), one.log);
  }

  /** The reconciliation a panic cut short: it was the next one, it panicked at
      the first line of one character, before any deletion, and its steps led
      from `from` to `now`. */
  ghost predicate CutShort(op: Operator, from: State, one: Served, next: string, now: State) {
    && one.user == next && Panics(op, from, one.user, one.listed)
    && ReconcileCut(op, from, one.user, one.listed, one.log) && Run(op, from, one.log) == now
    && InOrder(one.user, EntriesIn(op, from, one.user), ToMake(op, from, one.user, one.listed), one.log[2..], true)
  }

  /** All of `names` were served, or those before one that panicked. */
  ghost predicate Serves(op: Operator, s: State, names: seq<string>, served: seq<Served>, panic: Option<Served>, now: State) {
    match panic
    case None => UsersOf(served) == names && ServedTo(op, s, served, now)
    case Some(one) =>
      && |served| < |names| && UsersOf(served) == names[..|served|]
      && AllServed(op, s, served) && Legal(op, s, StepsOf(served))
      && CutShort(op, Run(op, s, StepsOf(served)), one, names[|served|], now)
  }

  /** The goroutine that serves the watcher's events: one reconciliation after
      the other, for the names of the written directories and in their order,
      each complete unless a panic ends the process. */
  method ServeEvents(r: CronJobReconciler, evts: seq<Event>) returns (served: seq<Served>, panic: Option<Served>)
    requires r.Valid()
    modifies r
    ensures r.Valid() && Serves(r.op, old(r.world), ReconcileNames(evts), served, panic, r.world)
  {
    served, panic := [], None;
    for i := 0 to |evts|
      invariant r.Valid() && panic == None
      invariant UsersOf(served) == ReconcileNames(evts[..i]) && ServedTo(r.op, old(r.world), served, r.world)
    {
      NamesOfPrefix(evts, i);
      if evts[i].op == Write && evts[i].info.isDir {
        ghost var before := r.world;
        var log, listed, panicked := r.Reconcile(evts[i].info.name);
        var one := Served(evts[i].info.name, listed, log);
        if panicked {
          panic := Some(one);
          ServedBefore(ReconcileNames(evts), served, one.user);
          return;
        }
        OneMoreServed(r.op, old(r.world), served, before, one);
        served := served + [one];
      }
    }
    assert evts[..|evts|] == evts;
  }

  lemma ServedBefore(names: seq<string>, served: seq<Served>, next: string)
    requires UsersOf(served) + [next] <= names
    ensures |served| < |names| && UsersOf(served) == names[..|served|] && names[|served|] == next
  {
    var users := UsersOf(served) + [next];
    assert names[..|users|][..|served|] == names[..|served|];
    assert users[..|served|] == UsersOf(served) && users[|served|] == next;
  }

  lemma NamesOfPrefix(evts: seq<Event>, i: nat)
    requires i < |evts|
    ensures var was := ReconcileNames(evts[..i]);
      ReconcileNames(evts[..i + 1]) == if CausesReconcile(evts[i]) then was + [evts[i].info.name] else was
    ensures ReconcileNames(evts[..i + 1]) <= ReconcileNames(evts)
  {
    assert evts[..i + 1][..i] == evts[..i];
    assert evts == evts[..i + 1] + evts[i + 1..];
    NamesSum(evts[..i + 1], evts[i + 1..]);
  }

  lemma NamedPathsHaveBaseNames(now: Files, paths: seq<string>)
    requires Named(now) && forall p | p in paths :: p in now
    ensures NamesIn(now, paths) == BaseNames(paths)
  {
  }

  /** One cycle of the operator: poll, then serve what was delivered.  The
      reconciliations are those of the base names of the directories in both
      snapshots whose modification time changed. */
  method WatchOnce(w: Watcher, r: CronJobReconciler, fs: FileSystem)
    returns (ok: bool, phases: Phases, served: seq<Served>, panic: Option<Served>)
    requires w.Valid() && r.Valid() && w.ops == CONTROLLER_OPS && w.maxEvents == 0 && WellNamedSystem(fs)
    modifies w`files, r
    ensures w.Valid() && r.Valid() && ok == (w.names.Keys <= fs.Keys)
    ensures !ok ==> w.files == old(w.files) && r.world == old(r.world) && served == [] && panic == None
    ensures ok ==> ShowsIn(w.RulesNow(), w.names, fs, w.files) && IsEmission(old(w.files), w.files, phases)
    ensures ok ==> Serves(r.op, old(r.world), BaseNames(TouchedIn(old(w.files), w.files, phases.order)), served, panic, r.world)
  {
    served, panic := [], None;
    var delivered;
    ok, delivered, phases := w.PollCycle(fs);
    if !ok {
      return;
    }
    DeliveredNames(w.RulesNow(), fs, w.names, old(w.files), w.files, phases);
    served, panic := ServeEvents(r, delivered);
  }

  lemma DeliveredNames(r: Rules, fs: FileSystem, names: map<string, bool>, was: Files, now: Files, ph: Phases)
    requires WellNamedSystem(fs) && ShowsIn(r, names, fs, now) && IsEmission(was, now, ph)
    ensures ReconcileNames(Capped(Filtered(Emitted(was, now, ph), CONTROLLER_OPS), 0))
      == BaseNames(TouchedIn(was, now, ph.order))
  {
    OneReconcilePerTouchedDirectory(was, now, ph);
    RetrievedIsNamed(r, fs, names, names.Keys, now);
    NamedPathsHaveBaseNames(now, TouchedIn(was, now, ph.order));
  }
}
