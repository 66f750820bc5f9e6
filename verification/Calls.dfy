/**
 What a batch of decided API calls does to the cluster, in whatever order the
 calls are made and whichever of them fail.
 */
module Calls {
  import opened Text
  import opened Fsclient
  import opened CronJobs
  import opened Cluster

  ghost predicate AllCalls(steps: seq<Step>) {
    forall i | 0 <= i < |steps| :: steps[i].Call?
  }

  /** The work of a batch of calls, with repetitions. */
  ghost function Works(calls: seq<Step>): multiset<Work>
    requires AllCalls(calls)
  {
    if calls == [] then multiset{} else Works(calls[1..]) + multiset{calls[0].work}
  }

  lemma {:induction false} WorksHolds(calls: seq<Step>, w: Work)
    requires AllCalls(calls)
    ensures w in Works(calls) <==> exists i :: 0 <= i < |calls| && calls[i].work == w
  {
    if calls != [] {
      WorksHolds(calls[1..], w);
      if i :| 0 <= i < |calls[1..]| && calls[1..][i].work == w {
        assert calls[i + 1].work == w;
      }
      if i :| 0 <= i < |calls| && calls[i].work == w {
        assert i > 0 ==> calls[1..][i - 1].work == w;
      }
    }
  }

  lemma {:induction false} WorksAppend(calls: seq<Step>, step: Step)
    requires AllCalls(calls) && step.Call?
    ensures AllCalls(calls + [step])
    ensures Works(calls + [step]) == Works(calls) + multiset{step.work}
  {
    if calls == [] {
      assert [step][1..] == [];
    } else {
      WorksAppend(calls[1..], step);
      assert (calls + [step])[1..] == calls[1..] + [step];
    }
  }

  ghost predicate Deletes(step: Step, name: nat) {
    step.Call? && step.ok && step.work.ToDelete? && step.work.name == name
  }

  ghost predicate Creates(op: Operator, step: Step, job: Job) {
    && step.Call? && step.ok && step.work.ToCreate?
    && NewJob(op, step.work.user, step.work.line, step.work.env) == Some(job)
  }

  ghost predicate DeletedBy(calls: seq<Step>, name: nat) {
    exists i :: 0 <= i < |calls| && Deletes(calls[i], name)
  }

  ghost predicate CreatedBy(op: Operator, calls: seq<Step>, job: Job) {
    exists i :: 0 <= i < |calls| && Creates(op, calls[i], job)
  }

  ghost predicate NamesBelow(jobs: map<nat, Job>, bound: nat) {
    forall n | n in jobs :: n < bound
  }

  /** The deletions of the batch are of jobs older than `bound`. */
  ghost predicate DeletesBelow(calls: seq<Step>, bound: nat) {
    forall i | 0 <= i < |calls| :: calls[i].Call? && (calls[i].work.ToDelete? ==> calls[i].work.name < bound)
  }

  /** Old jobs are gone if and only if a call deleted them, and are otherwise
      as they were; new jobs are exactly those a call created. */
  ghost predicate Outcome(op: Operator, s: State, calls: seq<Step>, t: State) {
    && t.crontabs == s.crontabs && s.nextName <= t.nextName && NamesBelow(t.jobs, t.nextName)
    && (forall n | n in s.jobs :: (n in t.jobs <==> !DeletedBy(calls, n)) && (n in t.jobs ==> t.jobs[n] == s.jobs[n]))
    && (forall n | n in t.jobs && n !in s.jobs :: s.nextName <= n && CreatedBy(op, calls, t.jobs[n]))
    && (forall job | CreatedBy(op, calls, job) :: exists n :: n in t.jobs && s.nextName <= n && t.jobs[n] == job)
  }

  lemma {:induction false} CallsOutcome(op: Operator, s: State, calls: seq<Step>, bound: nat)
    requires NamesBelow(s.jobs, s.nextName) && bound <= s.nextName
    requires DeletesBelow(calls, bound) && Legal(op, s, calls)
    ensures Outcome(op, s, calls, Run(op, s, calls))
    decreases |calls|
  {
    if calls != [] {
      var u, t := Next(op, s, calls[0]), Run(op, s, calls);
      var rest := calls[1..];
      CallsOutcome(op, u, rest, bound);
      forall n ensures DeletedBy(calls, n) <==> Deletes(calls[0], n) || DeletedBy(rest, n) {
        DeletedBySplit(calls, n);
      }
      forall job ensures CreatedBy(op, calls, job) <==> Creates(op, calls[0], job) || CreatedBy(op, rest, job) {
        CreatedBySplit(op, calls, job);
      }
      FirstCallOutcome(op, s, calls[0], bound);
      ComposeOutcome(op, s, u, t, calls, bound);
    }
  }

  lemma DeletedBySplit(calls: seq<Step>, n: nat)
    requires calls != []
    ensures DeletedBy(calls, n) <==> Deletes(calls[0], n) || DeletedBy(calls[1..], n)
  {
    if i :| 0 <= i < |calls[1..]| && Deletes(calls[1..][i], n) {
      assert Deletes(calls[i + 1], n);
    }
    if i :| 0 <= i < |calls| && Deletes(calls[i], n) {
      assert i > 0 ==> Deletes(calls[1..][i - 1], n);
    }
  }

  lemma CreatedBySplit(op: Operator, calls: seq<Step>, job: Job)
    requires calls != []
    ensures CreatedBy(op, calls, job) <==> Creates(op, calls[0], job) || CreatedBy(op, calls[1..], job)
  {
    if i :| 0 <= i < |calls[1..]| && Creates(op, calls[1..][i], job) {
      assert Creates(op, calls[i + 1], job);
    }
    if i :| 0 <= i < |calls| && Creates(op, calls[i], job) {
      assert i > 0 ==> Creates(op, calls[1..][i - 1], job);
    }
  }

  /** `Outcome` for a single call, said of the call itself. */
  ghost predicate CallOutcome(op: Operator, s: State, step: Step, t: State, bound: nat) {
    && t.crontabs == s.crontabs && s.nextName <= t.nextName && NamesBelow(t.jobs, t.nextName)
    && (forall n | n in s.jobs :: (n in t.jobs <==> !Deletes(step, n)) && (n in t.jobs ==> t.jobs[n] == s.jobs[n]))
    && (forall n | n in t.jobs && n !in s.jobs :: s.nextName <= n && Creates(op, step, t.jobs[n]))
    && (forall job | Creates(op, step, job) :: s.nextName in t.jobs && t.jobs[s.nextName] == job)
    && (forall n: nat | Deletes(step, n) :: n < bound)
  }

  lemma FirstCallOutcome(op: Operator, s: State, step: Step, bound: nat)
    requires NamesBelow(s.jobs, s.nextName) && bound <= s.nextName
    requires step.Call? && (step.work.ToDelete? ==> step.work.name < bound) && Enabled(op, s, step)
    ensures CallOutcome(op, s, step, Next(op, s, step), bound)
  {
    if step.ok && step.work.ToCreate? {
      var w := step.work;
      AddOutcome(op, s, step, NewJob(op, w.user, w.line, w.env).value, bound);
    } else {
      OtherOutcome(op, s, step, bound);
    }
  }

  lemma AddOutcome(op: Operator, s: State, step: Step, job: Job, bound: nat)
    requires NamesBelow(s.jobs, s.nextName) && Enabled(op, s, step) && Creates(op, step, job)
    ensures CallOutcome(op, s, step, Next(op, s, step), bound)
  {
    hide NewJob;
    assert Next(op, s, step).jobs == s.jobs[s.nextName := job];
  }

  lemma OtherOutcome(op: Operator, s: State, step: Step, bound: nat)
    requires NamesBelow(s.jobs, s.nextName) && Enabled(op, s, step) && step.Call?
    requires !(step.ok && step.work.ToCreate?) && (step.work.ToDelete? ==> step.work.name < bound)
    ensures CallOutcome(op, s, step, Next(op, s, step), bound)
  {
    assert Next(op, s, step).jobs == if step.ok then s.jobs - {step.work.name} else s.jobs;
  }

  lemma ComposeOutcome(op: Operator, s: State, u: State, t: State, calls: seq<Step>, bound: nat)
    requires calls != [] && bound <= s.nextName && NamesBelow(s.jobs, s.nextName) && DeletesBelow(calls, bound)
    requires CallOutcome(op, s, calls[0], u, bound) && Outcome(op, u, calls[1..], t)
    requires forall n :: DeletedBy(calls, n) <==> Deletes(calls[0], n) || DeletedBy(calls[1..], n)
    requires forall job :: CreatedBy(op, calls, job) <==> Creates(op, calls[0], job) || CreatedBy(op, calls[1..], job)
    ensures Outcome(op, s, calls, t)
  {
    forall n | n in s.jobs
      ensures (n in t.jobs <==> !DeletedBy(calls, n)) && (n in t.jobs ==> t.jobs[n] == s.jobs[n])
    {
    }
    forall job | CreatedBy(op, calls, job)
      ensures exists n :: n in t.jobs && s.nextName <= n && t.jobs[n] == job
    {
      if CreatedBy(op, calls[1..], job) {
        var n :| n in t.jobs && u.nextName <= n && t.jobs[n] == job;
      } else {
        assert u.jobs[s.nextName] == job;
        assert !DeletedBy(calls[1..], s.nextName);
      }
    }
  }
}
