/**
 Safety and convergence of the control loop over every run: every interleaving
 of crontab edits, external job creation and deletion, event handlers,
 reconciliations, failing calls and restarts.
 */
module SelfHealing {
  import opened Fsclient
  import opened CronJobs
  import opened Cluster

  // ---------------------------------------------------------------- invariant

  ghost predicate HasJob(s: State, user: string, id: string) {
    exists n :: n in s.jobs && s.jobs[n].user == user && s.jobs[n].identifier == id
  }

  /** Work that ends in a job with this identifier: the event that one was
      deleted, or a decided creation. */
  ghost predicate Promises(op: Operator, w: Work, user: string, id: string) {
    || (w.Deleted? && w.job.user == user && w.job.identifier == id)
    || (w.ToCreate? && w.user == user && Identifier(op, user, w.line, w.env) == id)
  }

  ghost predicate Promised(op: Operator, s: State, user: string, id: string) {
    exists w :: w in s.pending && Promises(op, w, user, id)
  }

  /** Work that ends in the job's removal if it is not wanted. */
  ghost predicate Doomed(s: State, name: nat)
    requires name in s.jobs
  {
    Created(name, s.jobs[name]) in s.pending || ToDelete(name, s.jobs[name]) in s.pending
  }

  /** Nothing wanted is forgotten, and nothing unwanted is overlooked. */
  ghost predicate Healing(op: Operator, s: State, user: string) {
    && (forall id | id in Wanted(op, s, user) :: HasJob(s, user, id) || Promised(op, s, user, id))
    && (forall n | n in s.jobs && s.jobs[n].user == user && s.jobs[n].identifier !in Wanted(op, s, user) :: Doomed(s, n))
  }

  /** A name stands for one job only. */
  ghost predicate NamesUnique(s: State) {
    && (forall n | n in s.jobs :: n < s.nextName)
    && (forall w | w in s.pending && (w.Created? || w.ToDelete?) ::
      w.name < s.nextName && (w.name in s.jobs ==> s.jobs[w.name] == w.job))
  }

  ghost predicate Inv(op: Operator, s: State) {
    NamesUnique(s) && forall u | u in s.settled :: Healing(op, s, u)
  }

  lemma InitHolds(op: Operator, s: State)
    requires Init(s)
    ensures Inv(op, s)
  {
  }

  /** A healing user stays healing when jobs stay, wanted or promised ones are
      not lost, and every new job is announced. */
  lemma HealingStays(op: Operator, s: State, t: State, user: string)
    requires Healing(op, s, user) && FileOf(t, user) == FileOf(s, user)
    requires forall id | id in Wanted(op, s, user) && (HasJob(s, user, id) || Promised(op, s, user, id)) ::
      HasJob(t, user, id) || Promised(op, t, user, id)
    requires forall n | n in t.jobs && t.jobs[n].user == user && t.jobs[n].identifier !in Wanted(op, s, user) ::
      (n in s.jobs && s.jobs[n] == t.jobs[n] && (Doomed(s, n) ==> Doomed(t, n))) || Doomed(t, n)
    ensures Healing(op, t, user)
  {
  }

  // ------------------------------------------------------------- single steps

  lemma AddJobHeals(op: Operator, s: State, job: Job, user: string)
    requires NamesUnique(s) && Healing(op, s, user)
    ensures Healing(op, AddJob(s, job), user)
  {
    var t := AddJob(s, job);
    forall id | HasJob(s, user, id) ensures HasJob(t, user, id) {
      var n :| n in s.jobs && s.jobs[n].user == user && s.jobs[n].identifier == id;
      assert n in t.jobs && t.jobs[n] == s.jobs[n];
    }
    forall id | Promised(op, s, user, id) ensures Promised(op, t, user, id) {
      var w :| w in s.pending && Promises(op, w, user, id);
      assert w in t.pending;
    }
    HealingStays(op, s, t, user);
  }

  lemma DropJobHeals(op: Operator, s: State, name: nat, user: string)
    requires Healing(op, s, user)
    ensures Healing(op, DropJob(s, name), user)
  {
    var t := DropJob(s, name);
    forall id | HasJob(s, user, id) ensures HasJob(t, user, id) || Promised(op, t, user, id) {
      var n :| n in s.jobs && s.jobs[n].user == user && s.jobs[n].identifier == id;
      if n == name {
        assert Deleted(s.jobs[n]) in t.pending && Promises(op, Deleted(s.jobs[n]), user, id);
      } else {
        assert n in t.jobs && t.jobs[n] == s.jobs[n];
      }
    }
    forall id | Promised(op, s, user, id) ensures Promised(op, t, user, id) {
      var w :| w in s.pending && Promises(op, w, user, id);
      assert w in t.pending;
    }
    HealingStays(op, s, t, user);
  }

  /** More work never hurts. */
  lemma MoreWorkHeals(op: Operator, s: State, t: State, user: string)
    requires Healing(op, s, user) && t.jobs == s.jobs && s.pending <= t.pending
    requires FileOf(t, user) == FileOf(s, user)
    ensures Healing(op, t, user)
  {
    forall id | Promised(op, s, user, id) ensures Promised(op, t, user, id) {
      var w :| w in s.pending && Promises(op, w, user, id);
      assert w in t.pending;
    }
    forall id | HasJob(s, user, id) ensures HasJob(t, user, id) {
      var n :| n in s.jobs && s.jobs[n].user == user && s.jobs[n].identifier == id;
      assert n in t.jobs;
    }
    HealingStays(op, s, t, user);
  }

  lemma CreateHeals(op: Operator, s: State, w: Work, user: string)
    requires NamesUnique(s) && Healing(op, s, user) && w in s.pending && w.ToCreate?
    requires NewJob(op, w.user, w.line, w.env).Some?
    ensures Healing(op, Next(op, s, Call(w, true)), user)
  {
    CreatedHeals(op, s, Next(op, s, Call(w, true)), w, NewJob(op, w.user, w.line, w.env).value, user);
  }

  /** A decided creation that becomes a job. */
  lemma CreatedHeals(op: Operator, s: State, t: State, w: Work, job: Job, user: string)
    requires NamesUnique(s) && Healing(op, s, user) && w.ToCreate? && t.crontabs == s.crontabs
    requires t.jobs == s.jobs[s.nextName := job]
    requires t.pending == s.pending - multiset{w} + multiset{Created(s.nextName, job)}
    requires job.user == w.user && job.identifier == Identifier(op, w.user, w.line, w.env)
    ensures Healing(op, t, user)
  {
    forall id | HasJob(s, user, id) ensures HasJob(t, user, id) {
      var n :| n in s.jobs && s.jobs[n].user == user && s.jobs[n].identifier == id;
      assert n in t.jobs && t.jobs[n] == s.jobs[n];
    }
    forall id | Promised(op, s, user, id) ensures HasJob(t, user, id) || Promised(op, t, user, id) {
      var v :| v in s.pending && Promises(op, v, user, id);
      if v == w {
        assert s.nextName in t.jobs && t.jobs[s.nextName] == job;
      } else {
        assert v in t.pending;
      }
    }
    assert Doomed(t, s.nextName);
    HealingStays(op, s, t, user);
  }

  lemma DeleteHeals(op: Operator, s: State, w: Work, user: string)
    requires Healing(op, s, user) && w in s.pending && w.ToDelete?
    ensures Healing(op, Next(op, s, Call(w, true)), user)
  {
    var t := Next(op, s, Call(w, true));
    forall id | HasJob(s, user, id) ensures HasJob(t, user, id) || Promised(op, t, user, id) {
      var n :| n in s.jobs && s.jobs[n].user == user && s.jobs[n].identifier == id;
      if n == w.name {
        assert Deleted(s.jobs[n]) in t.pending && Promises(op, Deleted(s.jobs[n]), user, id);
      } else {
        assert n in t.jobs && t.jobs[n] == s.jobs[n];
      }
    }
    forall id | Promised(op, s, user, id) ensures Promised(op, t, user, id) {
      var v :| v in s.pending && Promises(op, v, user, id);
      assert v in t.pending;
    }
    HealingStays(op, s, t, user);
  }

  /** A failed call concerns its own user only. */
  lemma FailureHeals(op: Operator, s: State, w: Work, user: string)
    requires NamesUnique(s) && Healing(op, s, user) && w in s.pending && (w.ToCreate? || w.ToDelete?)
    requires user != WorkUser(w)
    ensures Healing(op, Next(op, s, Call(w, false)), user)
  {
    var t := Next(op, s, Call(w, false));
    forall id | HasJob(s, user, id) ensures HasJob(t, user, id) {
      var n :| n in s.jobs && s.jobs[n].user == user && s.jobs[n].identifier == id;
      assert n in t.jobs;
    }
    forall id | Promised(op, s, user, id) ensures Promised(op, t, user, id) {
      var v :| v in s.pending && Promises(op, v, user, id);
      assert v in t.pending;
    }
    HealingStays(op, s, t, user);
  }

  lemma HandleCreatedHeals(op: Operator, s: State, w: Work, user: string)
    requires Healing(op, s, user) && w in s.pending && w.Created?
    ensures Healing(op, Next(op, s, Handle(w)), user)
  {
    var t := Next(op, s, Handle(w));
    forall id | HasJob(s, user, id) ensures HasJob(t, user, id) {
      var n :| n in s.jobs && s.jobs[n].user == user && s.jobs[n].identifier == id;
      assert n in t.jobs;
    }
    forall id | Promised(op, s, user, id) ensures Promised(op, t, user, id) {
      var v :| v in s.pending && Promises(op, v, user, id);
      assert v in t.pending;
    }
    HealingStays(op, s, t, user);
  }

  lemma HandleDeletedHeals(op: Operator, s: State, w: Work, user: string)
    requires Healing(op, s, user) && w in s.pending && w.Deleted?
    ensures Healing(op, Next(op, s, Handle(w)), user)
  {
    var t := Next(op, s, Handle(w));
    forall id | HasJob(s, user, id) ensures HasJob(t, user, id) {
      var n :| n in s.jobs && s.jobs[n].user == user && s.jobs[n].identifier == id;
      assert n in t.jobs;
    }
    forall id | id in Wanted(op, s, user) && Promised(op, s, user, id) ensures Promised(op, t, user, id) {
      PromiseIsKept(op, s, w, user, id);
    }
    HealingStays(op, s, t, user);
  }

  lemma PromiseIsKept(op: Operator, s: State, w: Work, user: string, id: string)
    requires w in s.pending && w.Deleted? && id in Wanted(op, s, user) && Promised(op, s, user, id)
    ensures Promised(op, Next(op, s, Handle(w)), user, id)
  {
    var v :| v in s.pending && Promises(op, v, user, id);
    if v == w {
      DeletedIsReplanned(op, s, w);
      var c :| c in HandlerPlan(op, s, w) && Promises(op, c, user, id);
      assert c in Next(op, s, Handle(w)).pending;
    } else {
      assert v in Next(op, s, Handle(w)).pending;
    }
  }

  /** The handler of a wanted job's deletion decides on a creation under the
      same identifier: the identifier computed anew is the key it was filed
      under. */
  lemma DeletedIsReplanned(op: Operator, s: State, w: Work)
    requires w.Deleted?
    ensures w.job.identifier in Wanted(op, s, w.job.user) ==>
      exists c :: c in HandlerPlan(op, s, w) && Promises(op, c, w.job.user, w.job.identifier)
  {
    var u, id := w.job.user, w.job.identifier;
    var plan := CreatePlan(u, EntriesIn(op, s, u), {id});
    assert HandlerPlan(op, s, w) == plan;
    IdentifiersAgree(op, u, FileOf(s, u));
    CreatePlanHolds(op, u, EntriesIn(op, s, u), {id});
    if id in Wanted(op, s, u) {
      assert Holders(EntriesIn(op, s, u), id) > 0;
      var c :| c in plan && c.ToCreate? && Identifier(op, u, c.line, c.env) == id;
      assert Promises(op, c, u, id);
    }
  }

  /** A listing under the crontab the user still has leaves nothing out. */
  lemma ListingHeals(op: Operator, s: State, r: Reading)
    requires r in s.readings && r.file == FileOf(s, r.user)
    ensures Healing(op, Next(op, s, ListJobs(r, true)), r.user)
  {
    var t, u := Next(op, s, ListJobs(r, true)), r.user;
    var missing := Wanted(op, s, u) - Present(s.jobs, u);
    IdentifiersAgree(op, u, r.file);
    CreatePlanHolds(op, u, EntriesIn(op, s, u), missing);
    forall id | id in Wanted(op, t, u) ensures HasJob(t, u, id) || Promised(op, t, u, id) {
      if id in missing {
        var c :| c in CreatePlan(u, EntriesIn(op, s, u), missing) && c.ToCreate? && Identifier(op, u, c.line, c.env) == id;
        assert c in t.pending && Promises(op, c, u, id);
      }
    }
    forall n | n in t.jobs && t.jobs[n].user == u && t.jobs[n].identifier !in Wanted(op, t, u) ensures Doomed(t, n) {
      assert ToDelete(n, s.jobs[n]) in DeletePlan(u, s.jobs, Wanted(op, s, u));
    }
  }

  // ------------------------------------------------------------------ all runs

  lemma StepHeals(op: Operator, s: State, step: Step, user: string)
    requires Inv(op, s) && Enabled(op, s, step) && user in Next(op, s, step).settled
    ensures Healing(op, Next(op, s, step), user)
  {
    var t := Next(op, s, step);
    match step
    case Edit(_, _) => MoreWorkHeals(op, s, t, user);
    case ExternalCreate(job) => AddJobHeals(op, s, job, user);
    case ExternalDelete(name) => DropJobHeals(op, s, name, user);
    case ReadCrontab(_) => MoreWorkHeals(op, s, t, user);
    case ListJobs(r, ok) => ListJobsHeals(op, s, r, ok, user);
    case Handle(w) => if w.Created? { HandleCreatedHeals(op, s, w, user); } else { HandleDeletedHeals(op, s, w, user); }
    case Call(w, ok) => CallHeals(op, s, w, ok, user);
    case Restart =>
  }

  lemma ListJobsHeals(op: Operator, s: State, r: Reading, ok: bool, user: string)
    requires r in s.readings && (user in s.settled ==> Healing(op, s, user))
    requires user in Next(op, s, ListJobs(r, ok)).settled
    ensures Healing(op, Next(op, s, ListJobs(r, ok)), user)
  {
    if user in s.settled {
      MoreWorkHeals(op, s, Next(op, s, ListJobs(r, ok)), user);
    } else {
      ListingHeals(op, s, r);
    }
  }

  lemma CallHeals(op: Operator, s: State, w: Work, ok: bool, user: string)
    requires NamesUnique(s) && Healing(op, s, user) && Enabled(op, s, Call(w, ok))
    requires user in Next(op, s, Call(w, ok)).settled
    ensures Healing(op, Next(op, s, Call(w, ok)), user)
  {
    if !ok { FailureHeals(op, s, w, user); }
    else if w.ToCreate? { CreateHeals(op, s, w, user); }
    else { DeleteHeals(op, s, w, user); }
  }

  lemma StepKeepsNames(op: Operator, s: State, step: Step)
    requires NamesUnique(s) && Enabled(op, s, step)
    ensures NamesUnique(Next(op, s, step))
  {
    match step
    case ListJobs(r, ok) =>
      ListingKeepsNames(op, s, r, ok);
    case Handle(w) => HandleKeepsNames(op, s, w);
    case Call(w, ok) => CallKeepsNames(op, s, w, ok);
    case _ =>
  }

  lemma CallKeepsNames(op: Operator, s: State, w: Work, ok: bool)
    requires NamesUnique(s) && Enabled(op, s, Call(w, ok))
    ensures NamesUnique(Next(op, s, Call(w, ok)))
  {
    var t := s.(pending := s.pending - multiset{w});
    assert NamesUnique(t);
    if ok && w.ToCreate? {
      AddKeepsNames(t, NewJob(op, w.user, w.line, w.env).value);
    }
  }

  lemma AddKeepsNames(s: State, job: Job)
    requires NamesUnique(s)
    ensures NamesUnique(AddJob(s, job))
  {
  }

  lemma HandleKeepsNames(op: Operator, s: State, w: Work)
    requires NamesUnique(s) && w in s.pending && (w.Created? || w.Deleted?)
    ensures NamesUnique(Next(op, s, Handle(w)))
  {
    if w.Deleted? {
      IdentifiersAgree(op, w.job.user, FileOf(s, w.job.user));
      CreatePlanHolds(op, w.job.user, EntriesIn(op, s, w.job.user), {w.job.identifier});
    }
  }

  lemma ListingKeepsNames(op: Operator, s: State, r: Reading, ok: bool)
    requires NamesUnique(s) && r in s.readings
    ensures NamesUnique(Next(op, s, ListJobs(r, ok)))
  {
    var plan := ReconcilePlan(op, s.jobs, r, ok);
    forall w | w in plan ensures w.ToCreate? || (w.ToDelete? && w.name in s.jobs && s.jobs[w.name] == w.job) {
      ReconcilePlanKinds(op, s.jobs, r, ok, w);
    }
    PlanKeepsNames(s, Next(op, s, ListJobs(r, ok)), plan);
  }

  lemma PlanKeepsNames(s: State, t: State, plan: multiset<Work>)
    requires NamesUnique(s) && t.jobs == s.jobs && t.nextName == s.nextName && t.pending == s.pending + plan
    requires forall w | w in plan :: w.ToCreate? || (w.ToDelete? && w.name in s.jobs && s.jobs[w.name] == w.job)
    ensures NamesUnique(t)
  {
  }

  lemma ReconcilePlanKinds(op: Operator, jobs: map<nat, Job>, r: Reading, ok: bool, w: Work)
    requires w in ReconcilePlan(op, jobs, r, ok)
    ensures w.ToCreate? || (w.ToDelete? && w.name in jobs && jobs[w.name] == w.job && w.job.user == r.user)
  {
    IdentifiersAgree(op, r.user, r.file);
    var entries, all := EntriesOf(op, r.user, r.file), AllUsercrons(op, r.user, r.file);
    CreatePlanHolds(op, r.user, entries, all.Keys - Present(jobs, r.user));
    CreatePlanHolds(op, r.user, entries, all.Keys);
  }

  lemma StepKeepsInv(op: Operator, s: State, step: Step)
    requires Inv(op, s) && Enabled(op, s, step)
    ensures Inv(op, Next(op, s, step))
  {
    StepKeepsNames(op, s, step);
    forall u | u in Next(op, s, step).settled ensures Healing(op, Next(op, s, step), u) {
      StepHeals(op, s, step, u);
    }
  }

  lemma {:induction false} RunKeepsInv(op: Operator, s: State, steps: seq<Step>)
    requires Inv(op, s) && Legal(op, s, steps)
    ensures Inv(op, Run(op, s, steps))
    decreases |steps|
  {
    if steps != [] {
      StepKeepsInv(op, s, steps[0]);
      RunKeepsInv(op, Next(op, s, steps[0]), steps[1..]);
    }
  }

  /** No event and no decided call concerns the user. */
  ghost predicate Quiet(s: State, user: string) {
    forall w | w in s.pending :: WorkUser(w) != user
  }

  /** In every run, whenever a settled user is quiet, that user's jobs carry
      exactly the identifiers the crontab asks for. */
  lemma SettledAndQuietMeansConverged(op: Operator, init: State, steps: seq<Step>, user: string)
    requires Init(init) && Legal(op, init, steps)
    requires var s := Run(op, init, steps); user in s.settled && Quiet(s, user)
    ensures var s := Run(op, init, steps); Present(s.jobs, user) == Wanted(op, s, user)
  {
    InitHolds(op, init);
    RunKeepsInv(op, init, steps);
    HealingQuiet(op, Run(op, init, steps), user);
  }

  lemma HealingQuiet(op: Operator, s: State, user: string)
    requires Healing(op, s, user) && Quiet(s, user)
    ensures Present(s.jobs, user) == Wanted(op, s, user)
  {
    assert forall w, id :: w in s.pending ==> !Promises(op, w, user, id);
    forall n | n in s.jobs && s.jobs[n].user == user ensures !Doomed(s, n) {
      assert WorkUser(Created(n, s.jobs[n])) == WorkUser(ToDelete(n, s.jobs[n])) == user;
    }
    forall id | id in Wanted(op, s, user) ensures id in Present(s.jobs, user) {
      assert HasJob(s, user, id);
    }
  }
}
