/**
 What one reconciliation achieves, whichever of its API calls fail and in
 whatever order it makes them.
 */
module Reconciliation {
  import opened Fsclient
  import opened CronJobs
  import opened Cluster
  import opened Calls

  ghost function ReadingOf(s: State, user: string): Reading {
    Reading(user, FileOf(s, user))
  }

  /** The steps of one undisturbed reconciliation: read, list, and then every
      call decided on, each failing or not. */
  ghost predicate ReconcileRun(op: Operator, s: State, user: string, listed: bool, log: seq<Step>) {
    && |log| >= 2 && log[0] == ReadCrontab(user) && log[1] == ListJobs(ReadingOf(s, user), listed)
    && Legal(op, s, log) && AllCalls(log[2..])
    && Works(log[2..]) == ReconcilePlan(op, s.jobs, ReadingOf(s, user), listed)
  }

  /** The steps of one that a panic cut short. */
  ghost predicate ReconcileCut(op: Operator, s: State, user: string, listed: bool, log: seq<Step>) {
    && |log| >= 2 && log[0] == ReadCrontab(user) && log[1] == ListJobs(ReadingOf(s, user), listed)
    && Legal(op, s, log) && AllCalls(log[2..])
    && Works(log[2..]) <= ReconcilePlan(op, s.jobs, ReadingOf(s, user), listed)
  }

  ghost predicate AreCreations(calls: seq<Step>) {
    forall i | 0 <= i < |calls| :: calls[i].Call? && calls[i].work.ToCreate?
  }

  ghost predicate AreDeletions(calls: seq<Step>) {
    forall i | 0 <= i < |calls| :: calls[i].Call? && calls[i].work.ToDelete?
  }

  /** The calls are, entry by entry, one creation for each wanted identifier the
      entry holds, within an entry in any order. */
  ghost predicate MadeFor(user: string, entries: seq<CronEntry>, want: set<string>, calls: seq<Step>) {
    if entries == [] then calls == []
    else
      var n := |entries| - 1;
      exists k: nat :: k <= |calls| && MadeFor(user, entries[..n], want, calls[..k])
        && MadeForEntry(user, entries[n], want, calls[k..])
  }

  ghost predicate MadeForEntry(user: string, e: CronEntry, want: set<string>, calls: seq<Step>) {
    AllCalls(calls) && Works(calls) == EntryPlan(user, e, e.usercrons.Keys * want)
  }

  /** Some of the creations of one entry. */
  ghost predicate PartForEntry(user: string, e: CronEntry, want: set<string>, calls: seq<Step>) {
    AllCalls(calls) && Works(calls) <= EntryPlan(user, e, e.usercrons.Keys * want)
  }

  /** Some line of the entry that is to be made into a job has at most one
      character. */
  ghost predicate IsShort(e: CronEntry, want: set<string>) {
    exists id :: id in e.usercrons && id in want && |e.usercrons[id]| <= 1
  }

  /** The calls stop at the first entry with such a line: everything before it
      has been made, and perhaps some of it. */
  ghost predicate StopsAtShortLine(user: string, entries: seq<CronEntry>, want: set<string>, calls: seq<Step>) {
    exists i: nat, k: nat :: i < |entries| && k <= |calls| && StopsAt(user, entries, want, calls, i, k)
  }

  ghost predicate StopsAt(user: string, entries: seq<CronEntry>, want: set<string>, calls: seq<Step>, i: nat, k: nat)
    requires i < |entries| && k <= |calls|
  {
    && (forall j | 0 <= j < i :: !IsShort(entries[j], want)) && IsShort(entries[i], want)
    && MadeFor(user, entries[..i], want, calls[..k]) && PartForEntry(user, entries[i], want, calls[k..])
  }

  /** All creations, entry by entry, and then the deletions. */
  ghost predicate CreatesThenDeletes(user: string, entries: seq<CronEntry>, want: set<string>, calls: seq<Step>) {
    exists k: nat :: k <= |calls| && MadeFor(user, entries, want, calls[..k]) && AreDeletions(calls[k..])
  }

  /** No creation comes after a deletion. */
  ghost predicate CreatesFirst(calls: seq<Step>) {
    forall i, j | 0 <= i < j < |calls| && calls[i].Call? && calls[j].Call? :: calls[j].work.ToCreate? ==> calls[i].work.ToCreate?
  }

  lemma EntryPlanIsCreations(user: string, e: CronEntry, want: set<string>, calls: seq<Step>)
    requires PartForEntry(user, e, want, calls)
    ensures AreCreations(calls)
  {
    forall i | 0 <= i < |calls| ensures calls[i].Call? && calls[i].work.ToCreate? {
      WorksHolds(calls, calls[i].work);
      EntryPlanHolds(user, e, e.usercrons.Keys * want, calls[i].work);
    }
  }

  lemma CreationsSum(calls: seq<Step>, k: nat)
    requires k <= |calls| && AreCreations(calls[..k]) && AreCreations(calls[k..])
    ensures AreCreations(calls)
  {
    assert forall i | k <= i < |calls| :: calls[i] == calls[k..][i - k];
    assert forall i | 0 <= i < k :: calls[i] == calls[..k][i];
  }

  lemma {:induction false} MadeForIsCreations(user: string, entries: seq<CronEntry>, want: set<string>, calls: seq<Step>)
    requires MadeFor(user, entries, want, calls)
    ensures AreCreations(calls)
    decreases |entries|
  {
    if entries != [] {
      var n := |entries| - 1;
      var k: nat :| k <= |calls| && MadeFor(user, entries[..n], want, calls[..k]) && MadeForEntry(user, entries[n], want, calls[k..]);
      MadeForIsCreations(user, entries[..n], want, calls[..k]);
      EntryPlanIsCreations(user, entries[n], want, calls[k..]);
      CreationsSum(calls, k);
    }
  }

  lemma StoppedIsCreations(user: string, entries: seq<CronEntry>, want: set<string>, calls: seq<Step>)
    requires StopsAtShortLine(user, entries, want, calls)
    ensures AreCreations(calls)
  {
    var i: nat, k: nat :| i < |entries| && k <= |calls| && StopsAt(user, entries, want, calls, i, k);
    MadeForIsCreations(user, entries[..i], want, calls[..k]);
    EntryPlanIsCreations(user, entries[i], want, calls[k..]);
    CreationsSum(calls, k);
  }

  lemma CreatesComeFirst(user: string, entries: seq<CronEntry>, want: set<string>, calls: seq<Step>)
    requires CreatesThenDeletes(user, entries, want, calls)
    ensures CreatesFirst(calls)
  {
    var k: nat :| k <= |calls| && MadeFor(user, entries, want, calls[..k]) && AreDeletions(calls[k..]);
    MadeForIsCreations(user, entries, want, calls[..k]);
    assert forall i | k <= i < |calls| :: calls[i] == calls[k..][i - k];
    assert forall i | 0 <= i < k :: calls[i] == calls[..k][i];
  }

  /** Creations alone leave every job as it is. */
  lemma CreationsSpareJobs(op: Operator, s: State, calls: seq<Step>)
    requires NamesBelow(s.jobs, s.nextName) && Legal(op, s, calls) && AreCreations(calls)
    ensures var t := Run(op, s, calls); forall n | n in s.jobs :: n in t.jobs && t.jobs[n] == s.jobs[n]
  {
    CallsOutcome(op, s, calls, s.nextName);
  }

  /** One entry more. */
  lemma OneMoreEntry(user: string, entries: seq<CronEntry>, i: nat, want: set<string>, calls: seq<Step>, more: seq<Step>)
    requires i < |entries| && MadeFor(user, entries[..i], want, calls) && MadeForEntry(user, entries[i], want, more)
    ensures MadeFor(user, entries[..i + 1], want, calls + more)
  {
    var es, all := entries[..i + 1], calls + more;
    assert es[..i] == entries[..i] && all[..|calls|] == calls && all[|calls|..] == more;
    assert MadeFor(user, es[..|es| - 1], want, all[..|calls|]) && MadeForEntry(user, es[|es| - 1], want, all[|calls|..]);
  }

  ghost predicate AllOk(calls: seq<Step>) {
    forall i | 0 <= i < |calls| :: calls[i].Call? && calls[i].ok
  }

  /** The state in which the calls start. */
  ghost function Decided(op: Operator, s: State, user: string, listed: bool): State {
    var read := Next(op, s, ReadCrontab(user));
    Next(op, read, ListJobs(ReadingOf(s, user), listed))
  }

  lemma RunOfCalls(op: Operator, s: State, user: string, listed: bool, log: seq<Step>)
    requires ReconcileRun(op, s, user, listed, log)
    ensures Legal(op, Decided(op, s, user, listed), log[2..])
    ensures Run(op, s, log) == Run(op, Decided(op, s, user, listed), log[2..])
  {
    var read := Next(op, s, ReadCrontab(user));
    assert log[1..][1..] == log[2..] && log[1..][0] == log[1];
    assert Legal(op, read, log[1..]) && Run(op, s, log) == Run(op, read, log[1..]);
  }

  lemma PlanKinds(op: Operator, s: State, user: string, listed: bool, w: Work)
    requires w in ReconcilePlan(op, s.jobs, ReadingOf(s, user), listed)
    ensures w.ToCreate? ==> w.user == user && Identifier(op, user, w.line, w.env) in Wanted(op, s, user)
    ensures !w.ToCreate? ==> w.ToDelete? && listed && w.name in s.jobs && s.jobs[w.name] == w.job
    ensures !w.ToCreate? ==> w.job.user == user && w.job.identifier !in Wanted(op, s, user)
  {
    var r := ReadingOf(s, user);
    IdentifiersAgree(op, user, r.file);
    CreatePlanHolds(op, user, EntriesIn(op, s, user), Wanted(op, s, user) - Present(s.jobs, user));
    CreatePlanHolds(op, user, EntriesIn(op, s, user), Wanted(op, s, user));
  }

  lemma ReconcileOutcome(op: Operator, s: State, user: string, listed: bool, log: seq<Step>)
    requires NamesBelow(s.jobs, s.nextName) && ReconcileRun(op, s, user, listed, log)
    ensures Outcome(op, Decided(op, s, user, listed), log[2..], Run(op, s, log))
    ensures forall i | 0 <= i < |log[2..]| :: log[2..][i].work in ReconcilePlan(op, s.jobs, ReadingOf(s, user), listed)
  {
    RunOfCalls(op, s, user, listed, log);
    var calls := log[2..];
    forall i | 0 <= i < |calls|
      ensures calls[i].work in ReconcilePlan(op, s.jobs, ReadingOf(s, user), listed)
      ensures calls[i].work.ToDelete? ==> calls[i].work.name < s.nextName
    {
      WorksHolds(calls, calls[i].work);
      PlanKinds(op, s, user, listed, calls[i].work);
    }
    CallsOutcome(op, Decided(op, s, user, listed), calls, s.nextName);
  }

  /** Other users' jobs and wanted jobs are left alone, and every new job is
      one the crontab asks for, even when calls fail or the listing does. */
  lemma ReconcileIsFramed(op: Operator, s: State, user: string, listed: bool, log: seq<Step>)
    requires NamesBelow(s.jobs, s.nextName) && ReconcileRun(op, s, user, listed, log)
    ensures var t := Run(op, s, log);
      forall n | n in s.jobs && (s.jobs[n].user != user || s.jobs[n].identifier in Wanted(op, s, user)) ::
        n in t.jobs && t.jobs[n] == s.jobs[n]
    ensures var t := Run(op, s, log);
      forall n | n in t.jobs && n !in s.jobs :: t.jobs[n].user == user && t.jobs[n].identifier in Wanted(op, s, user)
    ensures var t := Run(op, s, log); forall n | n in t.jobs && n in s.jobs :: t.jobs[n] == s.jobs[n]
  {
    ReconcileOutcome(op, s, user, listed, log);
    CallsRespectCrontab(op, s, user, listed, log[2..]);
  }

  lemma CallsRespectCrontab(op: Operator, s: State, user: string, listed: bool, calls: seq<Step>)
    requires AllCalls(calls)
    requires forall i | 0 <= i < |calls| :: calls[i].work in ReconcilePlan(op, s.jobs, ReadingOf(s, user), listed)
    ensures forall n | n in s.jobs && DeletedBy(calls, n) ::
      s.jobs[n].user == user && s.jobs[n].identifier !in Wanted(op, s, user)
    ensures forall job | CreatedBy(op, calls, job) :: job.user == user && job.identifier in Wanted(op, s, user)
  {
    forall n | n in s.jobs && DeletedBy(calls, n)
      ensures s.jobs[n].user == user && s.jobs[n].identifier !in Wanted(op, s, user)
    {
      var i :| 0 <= i < |calls| && Deletes(calls[i], n);
      PlanKinds(op, s, user, listed, calls[i].work);
    }
    forall job | CreatedBy(op, calls, job) ensures job.user == user && job.identifier in Wanted(op, s, user) {
      var i :| 0 <= i < |calls| && Creates(op, calls[i], job);
      PlanKinds(op, s, user, listed, calls[i].work);
    }
  }

  /** Under any failures the missing and the extra identifiers only shrink. */
  lemma ReconcileIsMonotone(op: Operator, s: State, user: string, listed: bool, log: seq<Step>)
    requires NamesBelow(s.jobs, s.nextName) && ReconcileRun(op, s, user, listed, log)
    ensures var t := Run(op, s, log);
      && Wanted(op, s, user) - Present(t.jobs, user) <= Wanted(op, s, user) - Present(s.jobs, user)
      && Present(t.jobs, user) - Wanted(op, s, user) <= Present(s.jobs, user) - Wanted(op, s, user)
  {
    ReconcileIsFramed(op, s, user, listed, log);
    var t, wanted := Run(op, s, log), Wanted(op, s, user);
    forall id | id in wanted && id in Present(s.jobs, user) ensures id in Present(t.jobs, user) {
      var n :| n in s.jobs && s.jobs[n].user == user && s.jobs[n].identifier == id;
      assert n in t.jobs;
    }
    forall id | id in Present(t.jobs, user) && id !in wanted ensures id in Present(s.jobs, user) {
      var n :| n in t.jobs && t.jobs[n].user == user && t.jobs[n].identifier == id;
      assert n in s.jobs;
    }
  }

  ghost predicate CreationOf(op: Operator, step: Step, user: string, id: string) {
    step.Call? && step.work.ToCreate? && step.work.user == user
    && Identifier(op, user, step.work.line, step.work.env) == id
  }

  ghost predicate DeletionOf(step: Step, user: string, id: string) {
    step.Call? && step.work.ToDelete? && step.work.job.user == user && step.work.job.identifier == id
  }

  /** With the listing done, an identifier stays missing only if it was tried
      and every try failed. */
  lemma MissingMeansAllCreatesFailed(op: Operator, s: State, user: string, log: seq<Step>, id: string)
    requires NamesBelow(s.jobs, s.nextName) && ReconcileRun(op, s, user, true, log)
    requires id in Wanted(op, s, user) - Present(Run(op, s, log).jobs, user)
    ensures exists i :: 2 <= i < |log| && CreationOf(op, log[i], user, id)
    ensures forall i | 2 <= i < |log| && CreationOf(op, log[i], user, id) :: !log[i].ok
  {
    var from, calls, t := Decided(op, s, user, true), log[2..], Run(op, s, log);
    assert forall i | 2 <= i < |log| :: log[i] == calls[i - 2];
    assert forall i | 0 <= i < |calls| && CreationOf(op, calls[i], user, id) :: !calls[i].ok by {
      assert Outcome(op, from, calls, t) by { ReconcileOutcome(op, s, user, true, log); }
      assert Legal(op, from, calls) by { RunOfCalls(op, s, user, true, log); }
      CreationsFailed(op, from, calls, t, user, id);
    }
    assert id !in Present(s.jobs, user) by { ReconcileIsMonotone(op, s, user, true, log); }
    var i := CreationIsTried(op, s, user, calls, id);
    assert CreationOf(op, log[i + 2], user, id);
  }

  lemma CreationsFailed(op: Operator, from: State, calls: seq<Step>, t: State, user: string, id: string)
    requires Outcome(op, from, calls, t) && Legal(op, from, calls) && id !in Present(t.jobs, user)
    ensures forall i | 0 <= i < |calls| && CreationOf(op, calls[i], user, id) :: !calls[i].ok
  {
    forall i | 0 <= i < |calls| && CreationOf(op, calls[i], user, id) ensures !calls[i].ok {
      if calls[i].ok { OkCreationIsPresent(op, from, calls, t, i, user, id); }
    }
  }

  lemma CreationIsTried(op: Operator, s: State, user: string, calls: seq<Step>, id: string) returns (i: nat)
    requires AllCalls(calls) && Works(calls) == ReconcilePlan(op, s.jobs, ReadingOf(s, user), true)
    requires id in Wanted(op, s, user) - Present(s.jobs, user)
    ensures i < |calls| && CreationOf(op, calls[i], user, id)
  {
    var missing := Wanted(op, s, user) - Present(s.jobs, user);
    IdentifiersAgree(op, user, FileOf(s, user));
    CreatePlanHolds(op, user, EntriesIn(op, s, user), missing);
    var w :| w in CreatePlan(user, EntriesIn(op, s, user), missing) && w.ToCreate? && Identifier(op, user, w.line, w.env) == id;
    WorksHolds(calls, w);
    i :| 0 <= i < |calls| && calls[i].work == w;
  }

  lemma OkCreationIsPresent(op: Operator, from: State, calls: seq<Step>, t: State, i: nat, user: string, id: string)
    requires Outcome(op, from, calls, t) && Legal(op, from, calls)
    requires i < |calls| && CreationOf(op, calls[i], user, id) && calls[i].ok
    ensures id in Present(t.jobs, user)
  {
    CallsAreMakeable(op, from, calls, i);
    CreatedIsPresent(op, from, calls, t, i);
  }

  ghost predicate CanBeMade(op: Operator, w: Work) {
    w.ToCreate? && NewJob(op, w.user, w.line, w.env).Some?
  }

  lemma CreatedIsPresent(op: Operator, s: State, calls: seq<Step>, t: State, i: nat)
    requires Outcome(op, s, calls, t) && i < |calls| && calls[i].Call? && calls[i].ok && calls[i].work.ToCreate?
    requires CanBeMade(op, calls[i].work)
    ensures var w := calls[i].work; Identifier(op, w.user, w.line, w.env) in Present(t.jobs, w.user)
  {
    var w := calls[i].work;
    var job := NewJob(op, w.user, w.line, w.env).value;
    assert Creates(op, calls[i], job) && CreatedBy(op, calls, job);
    var n :| n in t.jobs && t.jobs[n] == job;
    assert t.jobs[n].user == w.user;
  }

  lemma {:induction false} CallsAreMakeable(op: Operator, s: State, calls: seq<Step>, i: nat)
    requires Legal(op, s, calls) && i < |calls| && calls[i].Call? && calls[i].ok && calls[i].work.ToCreate?
    ensures CanBeMade(op, calls[i].work)
    decreases i
  {
    if i > 0 {
      CallsAreMakeable(op, Next(op, s, calls[0]), calls[1..], i - 1);
    }
  }

  /** With the listing done, an identifier stays extra only if a deletion of a
      job carrying it failed. */
  lemma ExtraMeansDeleteFailed(op: Operator, s: State, user: string, log: seq<Step>, id: string)
    requires NamesBelow(s.jobs, s.nextName) && ReconcileRun(op, s, user, true, log)
    requires id in Present(Run(op, s, log).jobs, user) - Wanted(op, s, user)
    ensures exists i :: 2 <= i < |log| && DeletionOf(log[i], user, id) && !log[i].ok
  {
    ReconcileOutcome(op, s, user, true, log);
    ReconcileIsFramed(op, s, user, true, log);
    var t, calls := Run(op, s, log), log[2..];
    var n :| n in t.jobs && t.jobs[n].user == user && t.jobs[n].identifier == id;
    var w := ToDelete(n, s.jobs[n]);
    assert w in DeletePlan(user, s.jobs, Wanted(op, s, user));
    WorksHolds(calls, w);
    var i :| 0 <= i < |calls| && calls[i].work == w;
    assert !Deletes(calls[i], n);
    assert DeletionOf(log[i + 2], user, id);
  }

  /** When the listing and every call succeed, the user's identifiers are
      exactly those of the crontab. */
  lemma ReconcileConverges(op: Operator, s: State, user: string, log: seq<Step>)
    requires NamesBelow(s.jobs, s.nextName) && ReconcileRun(op, s, user, true, log) && AllOk(log[2..])
    ensures Present(Run(op, s, log).jobs, user) == Wanted(op, s, user)
    ensures Wanted(op, Run(op, s, log), user) == Wanted(op, s, user)
  {
    forall id ensures id in Wanted(op, s, user) <==> id in Present(Run(op, s, log).jobs, user) {
      NothingMissing(op, s, user, log, id);
      NothingExtra(op, s, user, log, id);
    }
    ReconcileOutcome(op, s, user, true, log);
  }

  lemma NothingMissing(op: Operator, s: State, user: string, log: seq<Step>, id: string)
    requires NamesBelow(s.jobs, s.nextName) && ReconcileRun(op, s, user, true, log) && AllOk(log[2..])
    ensures id in Wanted(op, s, user) ==> id in Present(Run(op, s, log).jobs, user)
  {
    assert forall i | 2 <= i < |log| :: log[i] == log[2..][i - 2] && log[i].ok;
    if id in Wanted(op, s, user) - Present(Run(op, s, log).jobs, user) {
      MissingMeansAllCreatesFailed(op, s, user, log, id);
    }
  }

  lemma NothingExtra(op: Operator, s: State, user: string, log: seq<Step>, id: string)
    requires NamesBelow(s.jobs, s.nextName) && ReconcileRun(op, s, user, true, log) && AllOk(log[2..])
    ensures id in Present(Run(op, s, log).jobs, user) ==> id in Wanted(op, s, user)
  {
    assert forall i | 2 <= i < |log| :: log[i] == log[2..][i - 2] && log[i].ok;
    if id in Present(Run(op, s, log).jobs, user) - Wanted(op, s, user) {
      ExtraMeansDeleteFailed(op, s, user, log, id);
    }
  }

  lemma {:induction false} NothingMissingNothingPlanned(user: string, entries: seq<CronEntry>)
    ensures CreatePlan(user, entries, {}) == multiset{}
  {
    if entries != [] {
      NothingMissingNothingPlanned(user, entries[1..]);
      assert entries[0].usercrons.Keys * {} == {};
    }
  }

  /** A reconciliation that finds what it wants makes no call. */
  lemma ReconcileIsIdempotent(op: Operator, s: State, user: string, log: seq<Step>)
    requires ReconcileRun(op, s, user, true, log) && Present(s.jobs, user) == Wanted(op, s, user)
    ensures |log| == 2
  {
    var wanted := Wanted(op, s, user);
    NothingMissingNothingPlanned(user, EntriesIn(op, s, user));
    assert wanted - Present(s.jobs, user) == {};
    assert forall n | n in s.jobs && s.jobs[n].user == user :: s.jobs[n].identifier in Present(s.jobs, user);
    assert DeletePlan(user, s.jobs, wanted) == multiset{};
    assert Works(log[2..]) == multiset{};
    WorksSize(log[2..]);
  }

  lemma {:induction false} WorksSize(calls: seq<Step>)
    requires AllCalls(calls)
    ensures |Works(calls)| == |calls|
  {
    if calls != [] {
      WorksSize(calls[1..]);
    }
  }

  /** So a second reconciliation after a successful one writes nothing. */
  lemma SecondReconcileWritesNothing(op: Operator, s: State, user: string, first: seq<Step>, second: seq<Step>)
    requires NamesBelow(s.jobs, s.nextName) && ReconcileRun(op, s, user, true, first) && AllOk(first[2..])
    requires ReconcileRun(op, Run(op, s, first), user, true, second)
    ensures |second| == 2
  {
    ReconcileConverges(op, s, user, first);
    ReconcileIsIdempotent(op, Run(op, s, first), user, second);
  }

  /** A reconciliation for a name that has neither crontab nor jobs, as the
      update event of a job causes, writes nothing. */
  lemma UnknownNameWritesNothing(op: Operator, s: State, name: string, listed: bool, log: seq<Step>)
    requires ReconcileRun(op, s, name, listed, log)
    requires FileOf(s, name).Missing? && forall n | n in s.jobs :: s.jobs[n].user != name
    ensures |log| == 2
  {
    assert EntriesIn(op, s, name) == [] && DeletePlan(name, s.jobs, {}) == multiset{};
    WorksSize(log[2..]);
  }

  /** A reconciliation in which everything succeeds settles its user. */
  lemma ReconcileSettles(op: Operator, s: State, user: string, log: seq<Step>)
    requires ReconcileRun(op, s, user, true, log) && AllOk(log[2..])
    ensures Run(op, s, log).settled == s.settled + {user}
  {
    RunOfCalls(op, s, user, true, log);
    OkCallsKeepSettled(op, Decided(op, s, user, true), log[2..]);
  }

  lemma {:induction false} OkCallsKeepSettled(op: Operator, s: State, calls: seq<Step>)
    requires AllOk(calls) && Legal(op, s, calls)
    ensures Run(op, s, calls).settled == s.settled
    decreases |calls|
  {
    if calls != [] {
      OkCallsKeepSettled(op, Next(op, s, calls[0]), calls[1..]);
    }
  }

  // ------------------------------------------------------- how many are added

  /** Over the entries, how many of the identifiers each holds. */
  ghost function HeldCount(entries: seq<CronEntry>, ids: set<string>): nat {
    if entries == [] then 0 else |entries[0].usercrons.Keys * ids| + HeldCount(entries[1..], ids)
  }

  lemma {:induction false} EntryPlanSize(user: string, e: CronEntry, ids: set<string>)
    requires ids <= e.usercrons.Keys
    ensures |EntryPlan(user, e, ids)| == |ids|
    decreases |ids|
  {
    if ids != {} {
      var id :| id in ids;
      EntryPlanWithout(user, e, ids, id);
      EntryPlanSize(user, e, ids - {id});
    }
  }

  lemma {:induction false} CreatePlanSize(user: string, entries: seq<CronEntry>, ids: set<string>)
    ensures |CreatePlan(user, entries, ids)| == HeldCount(entries, ids)
  {
    if entries != [] {
      EntryPlanSize(user, entries[0], entries[0].usercrons.Keys * ids);
      CreatePlanSize(user, entries[1..], ids);
    }
  }

  predicate IsCreation(w: Work) {
    w.ToCreate?
  }

  ghost function CreationCount(calls: seq<Step>): nat
    requires AllCalls(calls)
  {
    if calls == [] then 0 else CreationCount(calls[1..]) + if calls[0].ok && IsCreation(calls[0].work) then 1 else 0
  }

  lemma {:induction false} NamesUsed(op: Operator, s: State, calls: seq<Step>)
    requires AllCalls(calls) && Legal(op, s, calls)
    ensures Run(op, s, calls).nextName == s.nextName + CreationCount(calls)
    decreases |calls|
  {
    if calls != [] {
      NamesUsed(op, Next(op, s, calls[0]), calls[1..]);
    }
  }

  lemma {:induction false} CreationsOf(calls: seq<Step>, creations: multiset<Work>, others: multiset<Work>)
    requires AllOk(calls) && AllCalls(calls) && Works(calls) == creations + others
    requires (forall w | w in creations :: IsCreation(w)) && (forall w | w in others :: !IsCreation(w))
    ensures CreationCount(calls) == |creations|
    decreases |calls|
  {
    if calls == [] {
      assert |Works(calls)| == 0;
    } else {
      var w := calls[0].work;
      assert w in Works(calls) && Works(calls[1..]) == Works(calls) - multiset{w};
      assert AllOk(calls[1..]);
      if IsCreation(w) {
        TakeFromLeft(creations, others, w);
        CreationsOf(calls[1..], creations - multiset{w}, others);
      } else {
        TakeFromLeft(others, creations, w);
        CreationsOf(calls[1..], creations, others - multiset{w});
      }
    }
  }

  lemma TakeFromLeft(a: multiset<Work>, b: multiset<Work>, w: Work)
    requires w in a
    ensures a + b - multiset{w} == (a - multiset{w}) + b && b + a - multiset{w} == b + (a - multiset{w})
    ensures |a| == |a - multiset{w}| + 1
  {
  }

  /** When every call succeeds, the jobs added are, over the entries, the
      identifiers that had no job: one held by two entries is added twice, and
      after a failed listing every identifier is added again. */
  lemma ReconcileAddsPerEntry(op: Operator, s: State, user: string, listed: bool, log: seq<Step>)
    requires ReconcileRun(op, s, user, listed, log) && AllOk(log[2..])
    ensures Run(op, s, log).nextName - s.nextName == HeldCount(EntriesIn(op, s, user),
      if listed then Wanted(op, s, user) - Present(s.jobs, user) else Wanted(op, s, user))
  {
    var missing := if listed then Wanted(op, s, user) - Present(s.jobs, user) else Wanted(op, s, user);
    var from, calls := Decided(op, s, user, listed), log[2..];
    assert Run(op, s, log).nextName == s.nextName + CreationCount(calls) by {
      RunOfCalls(op, s, user, listed, log);
      NamesUsed(op, from, calls);
    }
    var others := PlanParts(op, s, user, listed, missing);
    CreationsAdd(op, user, FileOf(s, user), missing, others, calls);
  }

  lemma PlanParts(op: Operator, s: State, user: string, listed: bool, missing: set<string>) returns (others: multiset<Work>)
    requires missing == if listed then Wanted(op, s, user) - Present(s.jobs, user) else Wanted(op, s, user)
    ensures forall w | w in others :: w.ToDelete?
    ensures ReconcilePlan(op, s.jobs, ReadingOf(s, user), listed) == CreatePlan(user, EntriesIn(op, s, user), missing) + others
  {
    others := if listed then DeletePlan(user, s.jobs, Wanted(op, s, user)) else multiset{};
  }

  lemma CreationsAdd(op: Operator, user: string, file: CrontabFile, ids: set<string>, others: multiset<Work>, calls: seq<Step>)
    requires AllOk(calls) && AllCalls(calls) && (forall w | w in others :: w.ToDelete?)
    requires Works(calls) == CreatePlan(user, EntriesOf(op, user, file), ids) + others
    ensures CreationCount(calls) == HeldCount(EntriesOf(op, user, file), ids)
  {
    IdentifiersAgree(op, user, file);
    CreatePlanHolds(op, user, EntriesOf(op, user, file), ids);
    CreationsOf(calls, CreatePlan(user, EntriesOf(op, user, file), ids), others);
    CreatePlanSize(user, EntriesOf(op, user, file), ids);
  }
}
