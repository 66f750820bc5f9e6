/**
 What a restart is good for: the watch announces every job there is, and so
 every job that no crontab asks for is found and deleted.
 */
module Startup {
  import opened Fsclient
  import opened CronJobs
  import opened Cluster
  import opened SelfHealing
  import opened Convergence

  ghost predicate IsUnwanted(op: Operator, s: State, n: nat)
    requires n in s.jobs
  {
    s.jobs[n].identifier !in Wanted(op, s, s.jobs[n].user)
  }

  /** Every unwanted job of every user is about to be looked at or deleted. */
  ghost predicate NoneOverlooked(op: Operator, s: State) {
    forall n | n in s.jobs && IsUnwanted(op, s, n) :: Doomed(s, n)
  }

  lemma RestartAnnouncesAll(op: Operator, s: State)
    ensures NoneOverlooked(op, Next(op, s, Restart))
  {
    var t := Next(op, s, Restart);
    forall n | n in t.jobs ensures Doomed(t, n) {
      assert Created(n, s.jobs[n]) in StartupEvents(s.jobs);
    }
  }

  lemma StepOverlooksNone(op: Operator, s: State, step: Step)
    requires NamesUnique(s) && NoneOverlooked(op, s)
    requires Enabled(op, s, step) && IsInternal(step) && (step.Call? ==> step.ok)
    ensures NoneOverlooked(op, Next(op, s, step)) && Next(op, s, step).crontabs == s.crontabs
  {
    var w := step.work;
    if step.Handle? {
      HandlingOverlooksNone(op, s, w);
    } else if w.ToCreate? {
      CreatingOverlooksNone(op, s, Next(op, s, step), w, NewJob(op, w.user, w.line, w.env).value);
    } else {
      DeletingOverlooksNone(op, s, w);
    }
  }

  lemma HandlingOverlooksNone(op: Operator, s: State, w: Work)
    requires NamesUnique(s) && NoneOverlooked(op, s) && w in s.pending && (w.Created? || w.Deleted?)
    ensures NoneOverlooked(op, Next(op, s, Handle(w)))
  {
    var t := Next(op, s, Handle(w));
    assert t.jobs == s.jobs && t.crontabs == s.crontabs && t.pending == s.pending - multiset{w} + HandlerPlan(op, s, w);
    forall n | n in t.jobs && IsUnwanted(op, t, n) ensures Doomed(t, n) {
      assert IsUnwanted(op, s, n) && Doomed(s, n);
      if w == Created(n, s.jobs[n]) {
        assert ToDelete(n, s.jobs[n]) in HandlerPlan(op, s, w);
      }
    }
  }

  lemma CreatingOverlooksNone(op: Operator, s: State, t: State, w: Work, job: Job)
    requires NamesUnique(s) && NoneOverlooked(op, s) && w.ToCreate? && t.crontabs == s.crontabs
    requires t.jobs == s.jobs[s.nextName := job]
    requires t.pending == s.pending - multiset{w} + multiset{Created(s.nextName, job)}
    ensures NoneOverlooked(op, t)
  {
    forall n | n in t.jobs && IsUnwanted(op, t, n) ensures Doomed(t, n) {
      if n != s.nextName { assert IsUnwanted(op, s, n) && Doomed(s, n); }
    }
  }

  lemma DeletingOverlooksNone(op: Operator, s: State, w: Work)
    requires NamesUnique(s) && NoneOverlooked(op, s) && w in s.pending && w.ToDelete?
    ensures NoneOverlooked(op, Next(op, s, Call(w, true)))
  {
    var t := Next(op, s, Call(w, true));
    assert t.crontabs == s.crontabs && t.jobs == s.jobs - {w.name};
    assert forall v | v in s.pending && v != w :: v in t.pending;
    forall n | n in t.jobs && IsUnwanted(op, t, n) ensures Doomed(t, n) {
      assert IsUnwanted(op, s, n) && Doomed(s, n) && n != w.name;
    }
  }

  lemma {:induction false} RunOverlooksNone(op: Operator, s: State, steps: seq<Step>)
    requires Inv(op, s) && NoneOverlooked(op, s)
    requires Legal(op, s, steps) && AllInternal(steps) && AllSucceed(steps)
    ensures NoneOverlooked(op, Run(op, s, steps)) && Run(op, s, steps).crontabs == s.crontabs
    decreases |steps|
  {
    if steps != [] {
      StepOverlooksNone(op, s, steps[0]);
      StepKeepsInv(op, s, steps[0]);
      RunOverlooksNone(op, Next(op, s, steps[0]), steps[1..]);
    }
  }

  /** After a restart, once everything that follows has been handled, only jobs
      that a crontab asks for are left, of any user, whether or not the user was
      ever reconciled. */
  lemma RestartRemovesUnwanted(op: Operator, s: State, steps: seq<Step>)
    requires Inv(op, s)
    requires var up := Next(op, s, Restart);
      && Legal(op, up, steps) && AllInternal(steps) && AllSucceed(steps) && Run(op, up, steps).pending == multiset{}
    ensures var end := Run(op, Next(op, s, Restart), steps);
      forall n | n in end.jobs :: end.jobs[n].identifier in Wanted(op, s, end.jobs[n].user)
  {
    var up := Next(op, s, Restart);
    RestartAnnouncesAll(op, s);
    StepKeepsInv(op, s, Restart);
    RunOverlooksNone(op, up, steps);
    var end := Run(op, up, steps);
    forall n | n in end.jobs ensures end.jobs[n].identifier in Wanted(op, s, end.jobs[n].user) {
      assert !Doomed(end, n);
      assert FileOf(end, end.jobs[n].user) == FileOf(s, end.jobs[n].user);
    }
  }
}
