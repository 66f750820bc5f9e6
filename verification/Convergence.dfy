/**
 The event loop neither creates and deletes for ever nor loses count: a measure
 that every handler step and every API call lowers, and a conservation law for
 the number of jobs under one identifier.
 */
module Convergence {
  import opened Fsclient
  import opened CronJobs
  import opened Cluster
  import opened SelfHealing

  // ---------------------------------------------------- sums over pending work

  ghost function Total(f: Work -> nat, m: multiset<Work>): nat
    decreases |m|
  {
    if m == multiset{} then 0
    else
      var w :| w in m;
      f(w) + Total(f, m - multiset{w})
  }

  lemma {:induction false} TotalWithout(f: Work -> nat, m: multiset<Work>, w: Work)
    requires w in m
    ensures Total(f, m) == f(w) + Total(f, m - multiset{w})
    decreases |m|
  {
    var v :| v in m && Total(f, m) == f(v) + Total(f, m - multiset{v});
    if v != w {
      var a, b := m - multiset{v}, m - multiset{w};
      assert a - multiset{w} == b - multiset{v};
      TotalWithout(f, a, w);
      TotalWithout(f, b, v);
    }
  }

  lemma {:induction false} TotalSum(f: Work -> nat, a: multiset<Work>, b: multiset<Work>)
    ensures Total(f, a + b) == Total(f, a) + Total(f, b)
    decreases |b|
  {
    if b == multiset{} {
      assert a + b == a;
    } else {
      var w :| w in b;
      TotalWithout(f, b, w);
      TotalWithout(f, a + b, w);
      TotalSum(f, a, b - multiset{w});
      assert a + b - multiset{w} == a + (b - multiset{w});
    }
  }

  lemma TotalOne(f: Work -> nat, w: Work)
    ensures Total(f, multiset{w}) == f(w)
  {
    TotalWithout(f, multiset{w}, w);
    assert multiset{w} - multiset{w} == multiset{};
  }

  lemma {:induction false} TotalUniform(f: Work -> nat, m: multiset<Work>, c: nat)
    requires forall w | w in m :: f(w) == c
    ensures Total(f, m) == c * |m|
    decreases |m|
  {
    if m != multiset{} {
      var w :| w in m;
      TotalWithout(f, m, w);
      var rest := m - multiset{w};
      TotalUniform(f, rest, c);
      assert |m| == |rest| + 1;
      assert c * (|rest| + 1) == c * |rest| + c;
    }
  }

  /** A step that replaces one piece of work by others changes the sum by what
      it adds and takes away. */
  lemma TotalReplaced(f: Work -> nat, m: multiset<Work>, w: Work, more: multiset<Work>)
    requires w in m
    ensures Total(f, m - multiset{w} + more) + f(w) == Total(f, m) + Total(f, more)
  {
    TotalWithout(f, m, w);
    TotalSum(f, m - multiset{w}, more);
  }

  // ------------------------------------------------------ recreating one job

  /** The handler of a deletion decides on one creation for each entry that
      holds the identifier. */
  lemma {:induction false} RecreationCount(user: string, entries: seq<CronEntry>, id: string)
    ensures |CreatePlan(user, entries, {id})| == Holders(entries, id)
  {
    if entries != [] {
      RecreationCount(user, entries[1..], id);
      var e := entries[0];
      if id in e.usercrons {
        assert e.usercrons.Keys * {id} == {id};
        EntryPlanWithout(user, e, {id}, id);
        assert {id} - {id} == {};
      } else {
        assert e.usercrons.Keys * {id} == {};
      }
    }
  }

  ghost function HoldersIn(op: Operator, s: State, user: string, id: string): nat {
    Holders(EntriesIn(op, s, user), id)
  }

  lemma RecreationPlan(op: Operator, s: State, job: Job)
    ensures |HandlerPlan(op, s, Deleted(job))| == HoldersIn(op, s, job.user, job.identifier)
    ensures forall c | c in HandlerPlan(op, s, Deleted(job)) ::
      c.ToCreate? && c.user == job.user && Identifier(op, c.user, c.line, c.env) == job.identifier
  {
    var entries := EntriesIn(op, s, job.user);
    IdentifiersAgree(op, job.user, FileOf(s, job.user));
    CreatePlanHolds(op, job.user, entries, {job.identifier});
    RecreationCount(job.user, entries, job.identifier);
    var plan := CreatePlan(job.user, entries, {job.identifier});
    assert HandlerPlan(op, s, Deleted(job)) == plan;
    assert forall c | c in plan :: Identifier(op, c.user, c.line, c.env) in {job.identifier};
  }

  lemma WantedIsHeld(op: Operator, s: State, user: string, id: string)
    ensures id in Wanted(op, s, user) <==> HoldersIn(op, s, user, id) > 0
  {
    IdentifiersAgree(op, user, FileOf(s, user));
  }

  // ------------------------------------------------------------- the measure

  /** The steps left once a job with this identifier is announced as created:
      one if it is wanted, otherwise three to decide on, make and announce its
      deletion. */
  ghost function CreatedCost(op: Operator, s: State, user: string, id: string): nat {
    if HoldersIn(op, s, user, id) > 0 then 1 else 3
  }

  /** A deletion is handled, and leads to a creation and its announcement for
      each entry that holds the identifier. */
  ghost function DeletedCost(op: Operator, s: State, job: Job): nat {
    1 + HoldersIn(op, s, job.user, job.identifier) + HoldersIn(op, s, job.user, job.identifier)
  }

  ghost function Cost(op: Operator, s: State, w: Work): nat {
    match w
    case Created(_, job) => CreatedCost(op, s, job.user, job.identifier)
    case Deleted(job) => DeletedCost(op, s, job)
    case ToDelete(_, job) => 1 + DeletedCost(op, s, job)
    case ToCreate(user, line, env) => 1 + CreatedCost(op, s, user, Identifier(op, user, line, env))
  }

  /** Cost depends on the crontabs only, so `at` stands for every state with
      the same crontabs. */
  ghost function CostAt(op: Operator, at: State): Work -> nat {
    w => Cost(op, at, w)
  }

  ghost function Measure(op: Operator, at: State, s: State): nat {
    Total(CostAt(op, at), s.pending)
  }

  predicate IsInternal(step: Step) {
    step.Handle? || step.Call?
  }

  /** Every handler step and every API call, failed or not, lowers the measure. */
  lemma InternalStepDecreases(op: Operator, at: State, s: State, step: Step)
    requires NamesUnique(s) && at.crontabs == s.crontabs
    requires Enabled(op, s, step) && IsInternal(step)
    ensures Measure(op, at, Next(op, s, step)) < Measure(op, at, s)
    ensures Next(op, s, step).crontabs == s.crontabs
  {
    if step.Handle? {
      HandleDecreases(op, at, s, step.work);
    } else {
      CallDecreases(op, at, s, step.work, step.ok);
    }
  }

  lemma HandleDecreases(op: Operator, at: State, s: State, w: Work)
    requires at.crontabs == s.crontabs && w in s.pending && (w.Created? || w.Deleted?)
    ensures Measure(op, at, Next(op, s, Handle(w))) < Measure(op, at, s)
  {
    if w.Deleted? {
      HandleDeletedDecreases(op, at, s, w);
    } else {
      var f, plan := CostAt(op, at), HandlerPlan(op, s, w);
      TotalReplaced(f, s.pending, w, plan);
      WantedIsHeld(op, s, w.job.user, w.job.identifier);
      TotalOne(f, ToDelete(w.name, w.job));
    }
  }

  lemma HandleDeletedDecreases(op: Operator, at: State, s: State, w: Work)
    requires at.crontabs == s.crontabs && w in s.pending && w.Deleted?
    ensures Measure(op, at, Next(op, s, Handle(w))) < Measure(op, at, s)
  {
    var f, plan, t := CostAt(op, at), HandlerPlan(op, s, w), Next(op, s, Handle(w));
    assert t.pending == s.pending - multiset{w} + plan;
    assert Total(f, t.pending) + f(w) == Total(f, s.pending) + Total(f, plan) by { TotalReplaced(f, s.pending, w, plan); }
    assert Total(f, plan) < f(w) by {
      RecreationTotal(op, at, s, w.job);
      DeletionCostsMore(op, at, s, w);
    }
  }

  lemma DeletionCostsMore(op: Operator, at: State, s: State, w: Work)
    requires at.crontabs == s.crontabs && w.Deleted?
    ensures var plan := HandlerPlan(op, s, w); CostAt(op, at)(w) == 1 + |plan| + |plan|
  {
    RecreationPlan(op, s, w.job);
  }

  lemma RecreationTotal(op: Operator, at: State, s: State, job: Job)
    requires at.crontabs == s.crontabs
    ensures var plan := HandlerPlan(op, s, Deleted(job)); Total(CostAt(op, at), plan) == |plan| + |plan|
  {
    var f, plan := CostAt(op, at), HandlerPlan(op, s, Deleted(job));
    forall c | c in plan ensures f(c) == 2 {
      RecreationCostsTwo(op, at, s, job, c);
    }
    TotalUniform(f, plan, 2);
  }

  lemma RecreationCostsTwo(op: Operator, at: State, s: State, job: Job, c: Work)
    requires at.crontabs == s.crontabs && c in HandlerPlan(op, s, Deleted(job))
    ensures Cost(op, at, c) == 2
  {
    RecreationPlan(op, s, job);
    assert |HandlerPlan(op, s, Deleted(job))| > 0;
  }

  lemma CallDecreases(op: Operator, at: State, s: State, w: Work, ok: bool)
    requires NamesUnique(s) && at.crontabs == s.crontabs && Enabled(op, s, Call(w, ok))
    ensures Measure(op, at, Next(op, s, Call(w, ok))) < Measure(op, at, s)
  {
    var f, t := CostAt(op, at), Next(op, s, Call(w, ok));
    if ok && w.ToCreate? {
      var made := Created(s.nextName, NewJob(op, w.user, w.line, w.env).value);
      TotalReplaced(f, s.pending, w, multiset{made});
      TotalOne(f, made);
    } else if ok && w.name in s.jobs {
      var gone := Deleted(s.jobs[w.name]);
      TotalReplaced(f, s.pending, w, multiset{gone});
      TotalOne(f, gone);
    } else {
      TotalWithout(f, s.pending, w);
    }
  }

  ghost predicate AllInternal(steps: seq<Step>) {
    forall i | 0 <= i < |steps| :: IsInternal(steps[i])
  }

  /** With the crontabs fixed and nothing happening outside, every run of
      handlers and calls ends: it is no longer than the measure. */
  lemma {:induction false} InternalRunsAreBounded(op: Operator, s: State, steps: seq<Step>)
    requires Inv(op, s) && Legal(op, s, steps) && AllInternal(steps)
    ensures |steps| + Measure(op, s, Run(op, s, steps)) <= Measure(op, s, s)
    ensures Run(op, s, steps).crontabs == s.crontabs
  {
    BoundedFrom(op, s, s, steps);
  }

  lemma {:induction false} BoundedFrom(op: Operator, at: State, s: State, steps: seq<Step>)
    requires Inv(op, s) && at.crontabs == s.crontabs && Legal(op, s, steps) && AllInternal(steps)
    ensures |steps| + Measure(op, at, Run(op, s, steps)) <= Measure(op, at, s)
    ensures Run(op, s, steps).crontabs == s.crontabs
    decreases |steps|
  {
    if steps != [] {
      InternalStepDecreases(op, at, s, steps[0]);
      StepKeepsInv(op, s, steps[0]);
      BoundedFrom(op, at, Next(op, s, steps[0]), steps[1..]);
    }
  }

  ghost predicate AllSucceed(steps: seq<Step>) {
    forall i | 0 <= i < |steps| :: steps[i].Call? ==> steps[i].ok
  }

  lemma {:induction false} SuccessKeepsSettled(op: Operator, s: State, steps: seq<Step>)
    requires Legal(op, s, steps) && AllInternal(steps) && AllSucceed(steps)
    ensures Run(op, s, steps).settled == s.settled
    decreases |steps|
  {
    if steps != [] {
      SuccessKeepsSettled(op, Next(op, s, steps[0]), steps[1..]);
    }
  }

  /** From any reachable state, letting handlers and calls run until none can
      go on takes boundedly many steps and leaves every settled user with
      exactly the identifiers of the crontab. */
  lemma MaximalRunsConverge(op: Operator, s: State, steps: seq<Step>, user: string)
    requires Inv(op, s) && user in s.settled
    requires Legal(op, s, steps) && AllInternal(steps) && AllSucceed(steps)
    requires forall step | IsInternal(step) :: !Enabled(op, Run(op, s, steps), step)
    ensures |steps| <= Measure(op, s, s)
    ensures Present(Run(op, s, steps).jobs, user) == Wanted(op, s, user)
  {
    var t := Run(op, s, steps);
    InternalRunsAreBounded(op, s, steps);
    SuccessKeepsSettled(op, s, steps);
    RunKeepsInv(op, s, steps);
    forall w ensures w !in t.pending {
      StuckMeansDrained(op, t, w);
    }
    HealingQuiet(op, t, user);
  }

  lemma StuckMeansDrained(op: Operator, s: State, w: Work)
    requires forall step | IsInternal(step) :: !Enabled(op, s, step)
    ensures w !in s.pending
  {
    assert IsInternal(Handle(w)) && IsInternal(Call(w, false));
    assert !Enabled(op, s, Handle(w)) && !Enabled(op, s, Call(w, false));
  }

  // ------------------------------------------------ such runs always exist

  /** Every line of every crontab has more than one character. */
  ghost predicate LongLines(op: Operator, s: State) {
    forall user: string, e, id | e in EntriesIn(op, s, user) && id in e.usercrons :: |e.usercrons[id]| > 1
  }

  /** And so has every line that a creation has been decided for. */
  ghost predicate LongWork(work: multiset<Work>) {
    forall w | w in work && w.ToCreate? :: |w.line| > 1
  }

  lemma {:induction false} PlannedLines(user: string, entries: seq<CronEntry>, ids: set<string>, w: Work)
    requires w in CreatePlan(user, entries, ids)
    ensures w.ToCreate? && exists e, id :: e in entries && id in e.usercrons && w.line == e.usercrons[id]
  {
    var e := entries[0];
    if w in EntryPlan(user, e, e.usercrons.Keys * ids) {
      EntryPlanHolds(user, e, e.usercrons.Keys * ids, w);
      assert e in entries;
    } else {
      PlannedLines(user, entries[1..], ids, w);
      var f, id :| f in entries[1..] && id in f.usercrons && w.line == f.usercrons[id];
      assert f in entries;
    }
  }

  lemma HandlersPlanLongLines(op: Operator, s: State, w: Work)
    requires LongLines(op, s) && (w.Created? || w.Deleted?)
    ensures LongWork(HandlerPlan(op, s, w))
  {
    if w.Deleted? {
      var entries := EntriesIn(op, s, w.job.user);
      forall c | c in CreatePlan(w.job.user, entries, {w.job.identifier}) ensures c.ToCreate? && |c.line| > 1 {
        PlannedLines(w.job.user, entries, {w.job.identifier}, c);
        var e, id :| e in entries && id in e.usercrons && c.line == e.usercrons[id];
      }
      assert HandlerPlan(op, s, w) == CreatePlan(w.job.user, entries, {w.job.identifier});
    }
  }

  /** The step that takes up one piece of pending work, successfully. */
  function StepFor(w: Work): Step {
    if w.Created? || w.Deleted? then Handle(w) else Call(w, true)
  }

  lemma WorkCanBeTakenUp(op: Operator, s: State, w: Work)
    requires LongLines(op, s) && LongWork(s.pending) && w in s.pending
    ensures Enabled(op, s, StepFor(w))
    ensures LongLines(op, Next(op, s, StepFor(w))) && LongWork(Next(op, s, StepFor(w)).pending)
  {
    if w.ToCreate? {
      OnlyShortLinesPanic(op, w.user, w.line, w.env);
    } else if w.Created? || w.Deleted? {
      HandlersPlanLongLines(op, s, w);
    }
    assert Next(op, s, StepFor(w)).crontabs == s.crontabs;
    SameCrontabsSameLines(op, s, Next(op, s, StepFor(w)));
  }

  lemma SameCrontabsSameLines(op: Operator, s: State, t: State)
    requires LongLines(op, s) && t.crontabs == s.crontabs
    ensures LongLines(op, t)
  {
    forall user: string, e, id | e in EntriesIn(op, t, user) && id in e.usercrons ensures |e.usercrons[id]| > 1 {
      assert EntriesIn(op, t, user) == EntriesIn(op, s, user);
    }
  }

  /** Unless a crontab has a one-character command, the pending work can always
      be brought to an end without a failure. */
  lemma {:induction false} WorkCanBeDrained(op: Operator, at: State, s: State) returns (steps: seq<Step>)
    requires Inv(op, s) && at.crontabs == s.crontabs && LongLines(op, s) && LongWork(s.pending)
    ensures Legal(op, s, steps) && AllInternal(steps) && AllSucceed(steps)
    ensures Run(op, s, steps).pending == multiset{}
    decreases Measure(op, at, s)
  {
    if s.pending == multiset{} {
      steps := [];
    } else {
      var w :| w in s.pending;
      WorkCanBeTakenUp(op, s, w);
      InternalStepDecreases(op, at, s, StepFor(w));
      StepKeepsInv(op, s, StepFor(w));
      var rest := WorkCanBeDrained(op, at, Next(op, s, StepFor(w)));
      StepFirst(op, s, StepFor(w), rest);
      steps := [StepFor(w)] + rest;
    }
  }

  lemma StepFirst(op: Operator, s: State, step: Step, rest: seq<Step>)
    requires Enabled(op, s, step) && IsInternal(step) && (step.Call? ==> step.ok)
    requires Legal(op, Next(op, s, step), rest) && AllInternal(rest) && AllSucceed(rest)
    ensures var steps := [step] + rest;
      && Legal(op, s, steps) && AllInternal(steps) && AllSucceed(steps)
      && Run(op, s, steps) == Run(op, Next(op, s, step), rest)
  {
    assert ([step] + rest)[1..] == rest;
  }

  // ------------------------------------------------- how many jobs there are

  function Named(jobs: map<nat, Job>, user: string, id: string): set<nat> {
    set n | n in jobs && jobs[n].user == user && jobs[n].identifier == id
  }

  /** The jobs under one identifier that a piece of work still stands for. */
  ghost function Share(op: Operator, s: State, user: string, id: string, w: Work): nat {
    if !Promises(op, w, user, id) then 0
    else if w.Deleted? then HoldersIn(op, s, user, id)
    else 1
  }

  ghost function ShareAt(op: Operator, at: State, user: string, id: string): Work -> nat {
    w => Share(op, at, user, id, w)
  }

  /** Jobs under the identifier, existing and still to come. */
  ghost function Expected(op: Operator, at: State, s: State, user: string, id: string): nat {
    |Named(s.jobs, user, id)| + Total(ShareAt(op, at, user, id), s.pending)
  }

  /** Handlers and creations only move jobs from still to come to existing. */
  lemma HandlingConserves(op: Operator, at: State, s: State, w: Work, user: string, id: string)
    requires at.crontabs == s.crontabs && w in s.pending && (w.Created? || w.Deleted?)
    ensures Expected(op, at, Next(op, s, Handle(w)), user, id) == Expected(op, at, s, user, id)
  {
    var f, plan, t := ShareAt(op, at, user, id), HandlerPlan(op, s, w), Next(op, s, Handle(w));
    assert t.jobs == s.jobs && t.pending == s.pending - multiset{w} + plan;
    assert Total(f, t.pending) + f(w) == Total(f, s.pending) + Total(f, plan) by { TotalReplaced(f, s.pending, w, plan); }
    assert Total(f, plan) == f(w) by { PlanKeepsShare(op, at, s, w, user, id); }
  }

  lemma PlanKeepsShare(op: Operator, at: State, s: State, w: Work, user: string, id: string)
    requires at.crontabs == s.crontabs && (w.Created? || w.Deleted?)
    ensures Total(ShareAt(op, at, user, id), HandlerPlan(op, s, w)) == ShareAt(op, at, user, id)(w)
  {
    if w.Deleted? { RecreationShares(op, at, s, w.job, user, id); } else { DeletionsHaveNoShare(op, at, s, w, user, id); }
  }

  lemma DeletionsHaveNoShare(op: Operator, at: State, s: State, w: Work, user: string, id: string)
    requires w.Created?
    ensures Total(ShareAt(op, at, user, id), HandlerPlan(op, s, w)) == 0
  {
    TotalOne(ShareAt(op, at, user, id), ToDelete(w.name, w.job));
  }

  lemma RecreationShares(op: Operator, at: State, s: State, job: Job, user: string, id: string)
    requires at.crontabs == s.crontabs
    ensures Total(ShareAt(op, at, user, id), HandlerPlan(op, s, Deleted(job))) == Share(op, at, user, id, Deleted(job))
  {
    var plan := HandlerPlan(op, s, Deleted(job));
    RecreationPlan(op, s, job);
    if job.user == user && job.identifier == id {
      TotalUniform(ShareAt(op, at, user, id), plan, 1);
    } else {
      TotalUniform(ShareAt(op, at, user, id), plan, 0);
    }
  }

  lemma CreatingConserves(op: Operator, at: State, s: State, w: Work, user: string, id: string)
    requires NamesUnique(s) && at.crontabs == s.crontabs && w.ToCreate? && Enabled(op, s, Call(w, true))
    ensures Expected(op, at, Next(op, s, Call(w, true)), user, id) == Expected(op, at, s, user, id)
  {
    var f, job := ShareAt(op, at, user, id), NewJob(op, w.user, w.line, w.env).value;
    var made := Created(s.nextName, job);
    assert Total(f, s.pending - multiset{w} + multiset{made}) + f(w) == Total(f, s.pending) + f(made) by {
      TotalReplaced(f, s.pending, w, multiset{made});
      TotalOne(f, made);
    }
    assert |Named(s.jobs[s.nextName := job], user, id)| == |Named(s.jobs, user, id)| + f(w) by {
      NamedAfterAdd(s, job, user, id);
    }
    assert f(made) == 0;
    var t := Next(op, s, Call(w, true));
    assert t.jobs == s.jobs[s.nextName := job] && t.pending == s.pending - multiset{w} + multiset{made};
  }

  lemma NamedAfterAdd(s: State, job: Job, user: string, id: string)
    requires s.nextName !in s.jobs
    ensures |Named(s.jobs[s.nextName := job], user, id)|
         == |Named(s.jobs, user, id)| + if job.user == user && job.identifier == id then 1 else 0
  {
    var n, more := s.nextName, s.jobs[s.nextName := job];
    var a, b := Named(s.jobs, user, id), Named(more, user, id);
    assert n !in a && more[n] == job && forall m | m in s.jobs :: more[m] == s.jobs[m];
    if job.user == user && job.identifier == id {
      assert b == a + {n};
    } else {
      assert b == a;
    }
  }

  /** A removal takes one job away and promises one for each entry that holds
      its identifier. */
  lemma RemovalChangesExpected(op: Operator, at: State, s: State, name: nat, user: string, id: string)
    requires at.crontabs == s.crontabs && name in Named(s.jobs, user, id)
    ensures Expected(op, at, DropJob(s, name), user, id)
         == Expected(op, at, s, user, id) - 1 + HoldersIn(op, s, user, id)
  {
    var f, gone := ShareAt(op, at, user, id), Deleted(s.jobs[name]);
    TotalSum(f, s.pending, multiset{gone});
    TotalOne(f, gone);
    assert Named(s.jobs - {name}, user, id) == Named(s.jobs, user, id) - {name};
  }

  /** Deleting a job of another identifier changes nothing under this one. */
  lemma OtherDeletionConserves(op: Operator, at: State, s: State, w: Work, user: string, id: string)
    requires NamesUnique(s) && w in s.pending && w.ToDelete? && !About(op, w, user, id)
    ensures Expected(op, at, Next(op, s, Call(w, true)), user, id) == Expected(op, at, s, user, id)
  {
    var f, t := ShareAt(op, at, user, id), Next(op, s, Call(w, true));
    var more := if w.name in s.jobs then multiset{Deleted(w.job)} else multiset{};
    assert t.jobs == s.jobs - {w.name} && t.pending == s.pending - multiset{w} + more;
    assert Total(f, t.pending) + f(w) == Total(f, s.pending) + Total(f, more) by {
      TotalReplaced(f, s.pending, w, more);
    }
    assert f(w) == 0 == Total(f, more) by { OthersHaveNoShare(op, at, w, user, id, more); }
    assert Named(t.jobs, user, id) == Named(s.jobs, user, id) by { NamedWithoutOther(op, s, w, user, id); }
  }

  lemma OthersHaveNoShare(op: Operator, at: State, w: Work, user: string, id: string, more: multiset<Work>)
    requires w.ToDelete? && !About(op, w, user, id) && (more == multiset{} || more == multiset{Deleted(w.job)})
    ensures ShareAt(op, at, user, id)(w) == 0 == Total(ShareAt(op, at, user, id), more)
  {
    TotalOne(ShareAt(op, at, user, id), Deleted(w.job));
  }

  lemma NamedWithoutOther(op: Operator, s: State, w: Work, user: string, id: string)
    requires w.ToDelete? && !About(op, w, user, id) && (w.name in s.jobs ==> s.jobs[w.name] == w.job)
    ensures Named(s.jobs - {w.name}, user, id) == Named(s.jobs, user, id)
  {
  }

  ghost predicate About(op: Operator, w: Work, user: string, id: string) {
    WorkUser(w) == user && id == if w.ToCreate? then Identifier(op, w.user, w.line, w.env) else w.job.identifier
  }

  /** No pending work will take away a job under the identifier. */
  ghost predicate Undisturbed(op: Operator, s: State, user: string, id: string) {
    forall w | w in s.pending && About(op, w, user, id) ::
      !w.ToDelete? && (HoldersIn(op, s, user, id) == 0 ==> w.Deleted?)
  }

  lemma HandleKeepsUndisturbed(op: Operator, s: State, w: Work, user: string, id: string)
    requires Undisturbed(op, s, user, id) && w in s.pending && (w.Created? || w.Deleted?)
    ensures Undisturbed(op, Next(op, s, Handle(w)), user, id)
  {
    var plan, t := HandlerPlan(op, s, w), Next(op, s, Handle(w));
    assert t.crontabs == s.crontabs && t.pending == s.pending - multiset{w} + plan;
    forall c | c in plan && About(op, c, user, id) ensures !c.ToDelete? && HoldersIn(op, s, user, id) > 0 {
      if w.Created? { DeletionIsOfAnother(op, s, w, user, id); } else { RecreationIsHeld(op, s, w, c, user, id); }
    }
  }

  lemma RecreationIsHeld(op: Operator, s: State, w: Work, c: Work, user: string, id: string)
    requires w.Deleted? && c in HandlerPlan(op, s, w) && About(op, c, user, id)
    ensures c.ToCreate? && HoldersIn(op, s, user, id) > 0
  {
    RecreationPlan(op, s, w.job);
    assert |HandlerPlan(op, s, w)| > 0;
  }

  lemma DeletionIsOfAnother(op: Operator, s: State, w: Work, user: string, id: string)
    requires w.Created? && Undisturbed(op, s, user, id) && w in s.pending
    ensures forall c | c in HandlerPlan(op, s, w) :: !About(op, c, user, id)
  {
    WantedIsHeld(op, s, user, id);
    if About(op, w, user, id) {
      assert HoldersIn(op, s, user, id) > 0;
      assert HandlerPlan(op, s, w) == multiset{};
    }
  }

  lemma CallKeepsUndisturbed(op: Operator, s: State, w: Work, user: string, id: string)
    requires NamesUnique(s) && Undisturbed(op, s, user, id) && Enabled(op, s, Call(w, true))
    ensures Undisturbed(op, Next(op, s, Call(w, true)), user, id)
  {
    hide NewJob;
  }

  /** Undisturbed, every successful internal step keeps the number of jobs,
      existing and still to come. */
  lemma {:induction false} InternalRunsConserve(op: Operator, at: State, s: State, steps: seq<Step>, user: string, id: string)
    requires Inv(op, s) && at.crontabs == s.crontabs && Undisturbed(op, s, user, id)
    requires Legal(op, s, steps) && AllInternal(steps) && AllSucceed(steps)
    ensures Expected(op, at, Run(op, s, steps), user, id) == Expected(op, at, s, user, id)
    decreases |steps|
  {
    if steps != [] {
      InternalStepConserves(op, at, s, steps[0], user, id);
      StepKeepsInv(op, s, steps[0]);
      InternalRunsConserve(op, at, Next(op, s, steps[0]), steps[1..], user, id);
    }
  }

  lemma InternalStepConserves(op: Operator, at: State, s: State, step: Step, user: string, id: string)
    requires Inv(op, s) && at.crontabs == s.crontabs && Undisturbed(op, s, user, id)
    requires Enabled(op, s, step) && IsInternal(step) && (step.Call? ==> step.ok)
    ensures Expected(op, at, Next(op, s, step), user, id) == Expected(op, at, s, user, id)
    ensures Next(op, s, step).crontabs == s.crontabs && Undisturbed(op, Next(op, s, step), user, id)
  {
    var w := step.work;
    if step.Handle? {
      HandlingConserves(op, at, s, w, user, id);
      HandleKeepsUndisturbed(op, s, w, user, id);
    } else {
      CallKeepsUndisturbed(op, s, w, user, id);
      if w.ToCreate? { CreatingConserves(op, at, s, w, user, id); } else { OtherDeletionConserves(op, at, s, w, user, id); }
    }
  }

  /** When a job is deleted from a cluster at rest, then once everything that
      follows has been handled there are as many jobs under its identifier as
      before, less one, plus one for each entry that holds it.  The number is
      restored if and only if exactly one entry does. */
  lemma RemovalIsMadeUpPerHolder(op: Operator, s: State, name: nat, user: string, id: string, steps: seq<Step>)
    requires Inv(op, s) && s.pending == multiset{} && name in Named(s.jobs, user, id)
    requires var dropped := Next(op, s, ExternalDelete(name));
      && Legal(op, dropped, steps) && AllInternal(steps) && AllSucceed(steps)
      && Run(op, dropped, steps).pending == multiset{}
    ensures var before := |Named(s.jobs, user, id)|;
      var after := |Named(Run(op, Next(op, s, ExternalDelete(name)), steps).jobs, user, id)|;
      && after == before - 1 + HoldersIn(op, s, user, id)
      && (after == before <==> HoldersIn(op, s, user, id) == 1)
  {
    var dropped := Next(op, s, ExternalDelete(name));
    StepKeepsInv(op, s, ExternalDelete(name));
    assert dropped.pending == multiset{Deleted(s.jobs[name])};
    RemovalChangesExpected(op, s, s, name, user, id);
    InternalRunsConserve(op, s, dropped, steps, user, id);
  }
}
