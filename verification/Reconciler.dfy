/**
 The reconciler over the API server: `Reconcile` and the two event handlers as
 loops that make one API call after the other.  Each returns the steps it took
 and is proved to be a run of the state machine.
 */
module Reconciler {
  import opened Text
  import opened CrontabSyntax
  import opened Environment
  import opened Fsclient
  import opened CronJobs
  import opened Cluster
  import opened Calls
  import opened Reconciliation

  /** From `from`, `calls` lead to `now`; of the plan, `left` is still to be
      made, and it is still decided, beside `rest`. */
  ghost predicate Progress(op: Operator, from: State, calls: seq<Step>, now: State,
                           plan: multiset<Work>, left: multiset<Work>, rest: multiset<Work>) {
    && AllCalls(calls) && Legal(op, from, calls) && Run(op, from, calls) == now
    && Works(calls) + left == plan && left + rest <= now.pending
  }

  lemma ProgressOne(op: Operator, from: State, calls: seq<Step>, now: State, plan: multiset<Work>,
                    left: multiset<Work>, rest: multiset<Work>, step: Step)
    requires step.Call? && Enabled(op, now, step)
    requires Progress(op, from, calls, now, plan, left + multiset{step.work}, rest)
    ensures Progress(op, from, calls + [step], Next(op, now, step), plan, left, rest)
  {
    RunAppend(op, from, calls, step);
    WorksAppend(calls, step);
    OthersStayDecided(op, now, step, left + rest);
  }

  lemma LeftIsDecided(op: Operator, from: State, calls: seq<Step>, now: State, plan: multiset<Work>,
                      left: multiset<Work>, w: Work, rest: multiset<Work>)
    requires Progress(op, from, calls, now, plan, left + multiset{w}, rest)
    ensures w in now.pending
  {
    assert w in left + multiset{w} + rest;
  }

  /** Making one of the decided calls leaves the others decided. */
  lemma OthersStayDecided(op: Operator, s: State, step: Step, others: multiset<Work>)
    requires step.Call? && Enabled(op, s, step) && others + multiset{step.work} <= s.pending
    ensures others <= Next(op, s, step).pending
  {
    assert others <= s.pending - multiset{step.work};
    assert s.pending - multiset{step.work} <= Next(op, s, step).pending;
  }

  /** Work on part of what is left, beside the rest. */
  lemma ProgressFocus(op: Operator, from: State, calls: seq<Step>, now: State, plan: multiset<Work>,
                      a: multiset<Work>, b: multiset<Work>, rest: multiset<Work>)
    requires Progress(op, from, calls, now, plan, a + b, rest)
    ensures Progress(op, from, calls, now, Works(calls) + a, a, b + rest)
    ensures Works(calls) + a + b == plan
  {
    assert a + (b + rest) == a + b + rest;
  }

  lemma ProgressUnfocus(op: Operator, from: State, calls: seq<Step>, now: State, plan: multiset<Work>,
                        a: multiset<Work>, b: multiset<Work>, rest: multiset<Work>)
    requires Progress(op, from, calls, now, plan, a, b + rest)
    ensures Progress(op, from, calls, now, plan + b, a + b, rest)
  {
    assert a + (b + rest) == a + b + rest;
  }

  /** Some line to be made into a job has at most one character. */
  ghost predicate HasShortLine(entries: seq<CronEntry>, want: set<string>) {
    exists e, id :: e in entries && id in e.usercrons && id in want && |e.usercrons[id]| <= 1
  }

  /** Some line that a reconciliation decides to make into a job has at most one
      character. */
  ghost predicate Panics(op: Operator, s: State, user: string, listed: bool) {
    HasShortLine(EntriesIn(op, s, user), ToMake(op, s, user, listed))
  }

  /** The identifiers a reconciliation creates jobs for. */
  ghost function ToMake(op: Operator, s: State, user: string, listed: bool): set<string> {
    if listed then Wanted(op, s, user) - Present(s.jobs, user) else Wanted(op, s, user)
  }

  /** The calls in the order they are made: creations entry by entry, up to the
      one that panics, and if none does the deletions after them. */
  ghost predicate InOrder(user: string, entries: seq<CronEntry>, want: set<string>, calls: seq<Step>, panicked: bool) {
    if panicked then StopsAtShortLine(user, entries, want, calls) else CreatesThenDeletes(user, entries, want, calls)
  }

  lemma OrderedCalls(op: Operator, s: State, user: string, listed: bool, entries: seq<CronEntry>, want: set<string>,
                     calls: seq<Step>, panicked: bool)
    requires NamesBelow(s.jobs, s.nextName) && Legal(op, Decided(op, s, user, listed), calls)
    requires InOrder(user, entries, want, calls, panicked)
    ensures CreatesFirst(calls) && (panicked ==> AreCreations(calls))
    ensures panicked ==> var t := Run(op, Decided(op, s, user, listed), calls);
      forall n | n in s.jobs :: n in t.jobs && t.jobs[n] == s.jobs[n]
  {
    if panicked {
      StoppedIsCreations(user, entries, want, calls);
      CreationsSpareJobs(op, Decided(op, s, user, listed), calls);
    } else {
      CreatesComeFirst(user, entries, want, calls);
    }
  }

  lemma {:induction false} WorksSum(a: seq<Step>, b: seq<Step>)
    requires AllCalls(a) && AllCalls(b)
    ensures AllCalls(a + b) && Works(a + b) == Works(a) + Works(b)
  {
    if a == [] {
      assert a + b == b;
    } else {
      assert (a + b)[1..] == a[1..] + b;
      WorksSum(a[1..], b);
    }
  }

  /** The calls made for one entry, complete or up to a panic. */
  lemma CallsOfEntry(user: string, entries: seq<CronEntry>, i: nat, want: set<string>, was: seq<Step>, calls: seq<Step>,
                     left: multiset<Work>, panicked: bool)
    requires i < |entries| && MadeFor(user, entries[..i], want, was) && !HasShortLine(entries[..i], want)
    requires AllCalls(was) && AllCalls(calls) && was <= calls
    requires var e := entries[i]; Works(calls) + left == Works(was) + EntryPlan(user, e, e.usercrons.Keys * want)
    requires panicked <==> exists id | id in entries[i].usercrons.Keys * want :: |entries[i].usercrons[id]| <= 1
    requires !panicked ==> left == multiset{}
    ensures if panicked then StopsAtShortLine(user, entries, want, calls) else MadeFor(user, entries[..i + 1], want, calls)
  {
    hide MadeFor, EntryPlan, StopsAtShortLine, HasShortLine, Works;
    var more := MoreCalls(was, calls);
    var e := entries[i];
    CancelWorks(Works(was), Works(more), left, EntryPlan(user, e, e.usercrons.Keys * want));
    if panicked {
      NoneShortBefore(entries, i, want);
      assert IsShort(entries[i], want);
      StopsHere(user, entries, i, want, was, more);
    } else {
      OneMoreEntry(user, entries, i, want, was, more);
    }
  }

  lemma CancelWorks(a: multiset<Work>, b: multiset<Work>, c: multiset<Work>, d: multiset<Work>)
    requires a + b + c == a + d
    ensures b + c == d
  {
    assert b + c == a + b + c - a && d == a + d - a;
  }

  lemma MoreCalls(was: seq<Step>, calls: seq<Step>) returns (more: seq<Step>)
    requires AllCalls(calls) && was <= calls
    ensures calls == was + more && AllCalls(was) && AllCalls(more) && Works(calls) == Works(was) + Works(more)
  {
    more := calls[|was|..];
    assert calls == was + more;
    assert forall i | 0 <= i < |was| :: was[i] == calls[i];
    WorksSum(was, more);
  }

  lemma StopsHere(user: string, entries: seq<CronEntry>, i: nat, want: set<string>, was: seq<Step>, more: seq<Step>)
    requires i < |entries| && MadeFor(user, entries[..i], want, was) && PartForEntry(user, entries[i], want, more)
    requires (forall j | 0 <= j < i :: !IsShort(entries[j], want)) && IsShort(entries[i], want)
    ensures StopsAtShortLine(user, entries, want, was + more)
  {
    var calls := was + more;
    assert calls[..|was|] == was && calls[|was|..] == more;
    assert StopsAt(user, entries, want, calls, i, |was|);
  }

  lemma NoneShortBefore(entries: seq<CronEntry>, i: nat, want: set<string>)
    requires i <= |entries| && !HasShortLine(entries[..i], want)
    ensures forall j | 0 <= j < i :: !IsShort(entries[j], want)
  {
    forall j | 0 <= j < i ensures !IsShort(entries[j], want) {
      assert entries[..i][j] == entries[j] && entries[j] in entries[..i];
    }
  }

  lemma AnsweredOneMore(calls: seq<Step>, step: Step, answers: nat -> bool, first: nat)
    requires Answered(calls, answers, first) && step.Call? && step.ok == answers(first + |calls|)
    ensures Answered(calls + [step], answers, first)
  {
    var more := calls + [step];
    forall i | 0 <= i < |more| ensures more[i].Call? && more[i].ok == answers(first + i) {
      if i < |calls| { assert more[i] == calls[i]; }
    }
  }

  /** A crontab of the single character `x` panics a reconciliation unless the
      listing finds a job for that line. */
  lemma OneCharacterPanics(op: Operator, s: State, user: string, line: string, listed: bool)
    requires line == "x" && FileOf(s, user) == Readable([line])
    ensures Panics(op, s, user, listed) <==> !(listed && Identifier(op, user, line, map[]) in Present(s.jobs, user))
  {
    CommandWithoutEquals(line);
    OneLine(op, user, line);
    var id := Identifier(op, user, line, map[]);
    assert EntriesIn(op, s, user) == [CronEntry(map[], map[id := line])] && Wanted(op, s, user) == {id};
    assert ToMake(op, s, user, listed) == if listed && id in Present(s.jobs, user) then {} else {id};
    assert EntriesIn(op, s, user)[0].usercrons[id] == line;
  }

  /** The read and the listing, followed by the calls. */
  lemma AfterListing(op: Operator, s: State, user: string, listed: bool, calls: seq<Step>)
    requires Legal(op, Decided(op, s, user, listed), calls)
    ensures var log := [ReadCrontab(user), ListJobs(ReadingOf(s, user), listed)] + calls;
      && log[2..] == calls && Legal(op, s, log)
      && Run(op, s, log) == Run(op, Decided(op, s, user, listed), calls)
  {
    var a, b := ReadCrontab(user), ListJobs(ReadingOf(s, user), listed);
    var log := [a, b] + calls;
    assert log[1..] == [b] + calls && log[1..][1..] == calls;
    assert Legal(op, Next(op, s, a), log[1..]);
  }

  ghost predicate StepTaken(op: Operator, s: State, step: Step, t: State) {
    Enabled(op, s, step) && t == Next(op, s, step)
  }

  lemma CreateEffect(op: Operator, s: State, step: Step, job: Job)
    requires step.Call? && step.work.ToCreate? && step.work in s.pending
    requires NewJob(op, step.work.user, step.work.line, step.work.env) == Some(job)
    ensures Enabled(op, s, step) && Next(op, s, step).crontabs == s.crontabs
    ensures Next(op, s, step).jobs == if step.ok then s.jobs[s.nextName := job] else s.jobs
    ensures Next(op, s, step).nextName == if step.ok then s.nextName + 1 else s.nextName
  {
    hide NewJob;
  }

  lemma DeleteEffect(op: Operator, s: State, step: Step)
    requires step.Call? && step.work.ToDelete? && step.work in s.pending
    ensures Enabled(op, s, step) && Next(op, s, step).crontabs == s.crontabs
    ensures Next(op, s, step).jobs == if step.ok then s.jobs - {step.work.name} else s.jobs
    ensures Next(op, s, step).nextName == s.nextName
  {
  }

  /** The calls were answered by the server in turn, from its answer `first` on. */
  ghost predicate Answered(calls: seq<Step>, answers: nat -> bool, first: nat) {
    forall i | 0 <= i < |calls| :: calls[i].Call? && calls[i].ok == answers(first + i)
  }

  /** `answers` says of each request to the API server, in turn, whether it
      succeeds; `asked` counts them. */
  class CronJobReconciler {
    const op: Operator
    const answers: nat -> bool
    var asked: nat
    var crontabs: map<string, CrontabFile>
    var jobs: map<nat, Job>
    var nextName: nat
    ghost var world: State

    ghost predicate Valid()
      reads this
    {
      && world.crontabs == crontabs && world.jobs == jobs && world.nextName == nextName
      && NamesBelow(jobs, nextName)
    }

    constructor (op: Operator, answers: nat -> bool, s: State)
      requires NamesBelow(s.jobs, s.nextName)
      ensures Valid() && this.op == op && this.answers == answers && asked == 0 && world == s
    {
      this.op, this.answers, asked := op, answers, 0;
      crontabs, jobs, nextName := s.crontabs, s.jobs, s.nextName;
      world := s;
    }

    function FileNow(user: string): CrontabFile
      reads this
    {
      if user in crontabs then crontabs[user] else Missing
    }

    /** One request to the API server. */
    method Ask() returns (ok: bool)
      requires Valid()
      modifies this`asked
      ensures Valid() && ok == answers(old(asked)) && asked == old(asked) + 1
    {
      ok := answers(asked);
      asked := asked + 1;
    }

    /** `calls` are the requests made since the server had been asked `first`
        times. */
    ghost predicate Made(calls: seq<Step>, first: nat)
      reads this
    {
      asked == first + |calls| && Answered(calls, answers, first)
    }

    /** `r.Create` for one line; it may fail.  `panicked` is the index out of
        range on a line that has no command part. */
    method CreateCronJob(user: string, line: string, env: Env) returns (step: Step, panicked: bool)
      requires Valid() && ToCreate(user, line, env) in world.pending
      modifies this
      ensures Valid() && panicked == NewJob(op, user, line, env).None?
      ensures step.Call? && step.work == ToCreate(user, line, env)
      ensures if panicked then world == old(world) && asked == old(asked)
        else StepTaken(op, old(world), step, world) && step.ok == answers(old(asked)) && asked == old(asked) + 1
    {
      hide NewJob;
      var job := BuildJob(op, user, line, env);
      var ok := false;
      step, panicked := Call(ToCreate(user, line, env), ok), job.None?;
      if job.Some? {
        ok := Ask();
        step := Call(ToCreate(user, line, env), ok);
        CreateEffect(op, world, step, job.value);
        if ok {
          jobs, nextName := jobs[nextName := job.value], nextName + 1;
        }
        world := Next(op, world, step);
      }
    }

    /** `r.Delete`; it may fail, and does nothing to a job that is gone. */
    method DeleteCronJob(name: nat, job: Job) returns (step: Step)
      requires Valid() && ToDelete(name, job) in world.pending
      modifies this
      ensures Valid() && step.Call? && step.work == ToDelete(name, job)
      ensures StepTaken(op, old(world), step, world)
      ensures step.ok == answers(old(asked)) && asked == old(asked) + 1
    {
      var ok := Ask();
      step := Call(ToDelete(name, job), ok);
      DeleteEffect(op, world, step);
      if ok {
        jobs := jobs - {name};
      }
      world := Next(op, world, step);
    }

    /** The listing: which wanted identifiers have a job, and which jobs to
        delete.  A failed listing looks like an empty one. */
    method GetValidK8sCronjobsSchedulesForUser(user: string, userSchedules: map<string, string>, listed: bool)
      returns (present: seq<string>, toDelete: seq<Work>)
      requires Valid()
      ensures !listed ==> present == [] && toDelete == []
      ensures listed ==> (forall id :: id in present <==> id in userSchedules && id in Present(jobs, user))
      ensures listed ==> multiset(toDelete) == DeletePlan(user, jobs, userSchedules.Keys)
    {
      present, toDelete := [], [];
      if !listed {
        return;
      }
      var items := set n | n in jobs && jobs[n].user == user;
      ghost var seen: map<nat, Job> := map[];
      while items != {}
        invariant items <= jobs.Keys && (forall n | n in items :: jobs[n].user == user)
        invariant forall n | n in jobs && jobs[n].user == user :: n in items || n in seen
        invariant forall n | n in seen :: n in jobs && n !in items && seen[n] == jobs[n] && jobs[n].user == user
        invariant forall id :: id in present <==> id in userSchedules && id in Present(seen, user)
        invariant multiset(toDelete) == DeletePlan(user, seen, userSchedules.Keys)
        decreases |items|
      {
        var n :| n in items;
        items := items - {n};
        var identifier := jobs[n].identifier;
        OneMoreListed(user, seen, n, jobs[n], userSchedules.Keys);
        if identifier in userSchedules {
          present := present + [identifier];
        } else {
          toDelete := toDelete + [ToDelete(n, jobs[n])];
        }
        seen := seen[n := jobs[n]];
      }
      SameUserSamePlan(user, seen, jobs, userSchedules.Keys);
    }

    /** The creation of one line, which may panic. */
    method CreateNext(user: string, line: string, env: Env, ghost from: State, before: seq<Step>,
                      ghost plan: multiset<Work>, ghost left: multiset<Work>, ghost rest: multiset<Work>, ghost first: nat)
      returns (calls: seq<Step>, panicked: bool)
      requires Valid() && Made(before, first)
      requires Progress(op, from, before, world, plan, left + multiset{ToCreate(user, line, env)}, rest)
      modifies this
      ensures Valid() && before <= calls && Made(calls, first)
      ensures panicked <==> |line| <= 1
      ensures Progress(op, from, calls, world, plan,
                       if panicked then left + multiset{ToCreate(user, line, env)} else left, rest)
    {
      hide NewJob, Progress, Next, Run, Legal, Works, Enabled, EntryPlan, Answered;
      LeftIsDecided(op, from, before, world, plan, left, ToCreate(user, line, env), rest);
      calls := before;
      ghost var now := world;
      var step;
      step, panicked := CreateCronJob(user, line, env);
      OnlyShortLinesPanic(op, user, line, env);
      if !panicked {
        ProgressOne(op, from, calls, now, plan, left, rest, step);
        AnsweredOneMore(calls, step, answers, first);
        calls := calls + [step];
      }
    }

    /** The creations of one entry, for the identifiers that have no job yet, in
        whatever order the map yields them. */
    method CreateFrom(user: string, e: CronEntry, ids: set<string>, ghost from: State, before: seq<Step>,
                      ghost plan: multiset<Work>, ghost rest: multiset<Work>, ghost first: nat)
      returns (calls: seq<Step>, panicked: bool, ghost left: multiset<Work>)
      requires Valid() && ids <= e.usercrons.Keys && Made(before, first)
      requires Progress(op, from, before, world, plan, EntryPlan(user, e, ids), rest)
      modifies this
      ensures Valid() && before <= calls && Made(calls, first)
      ensures panicked <==> exists id | id in ids :: |e.usercrons[id]| <= 1
      ensures Progress(op, from, calls, world, plan, left, rest)
      ensures !panicked ==> left == multiset{}
    {
      calls, panicked := before, false;
      var todo := ids;
      while todo != {}
        invariant Valid() && todo <= ids && before <= calls && Made(calls, first)
        invariant Progress(op, from, calls, world, plan, EntryPlan(user, e, todo), rest)
        invariant forall id | id in ids && id !in todo :: |e.usercrons[id]| > 1
        decreases |todo|
      {
        var id :| id in todo;
        left := EntryPlan(user, e, todo);
        EntryPlanWithout(user, e, todo, id);
        todo := todo - {id};
        ghost var others := EntryPlan(user, e, todo);
        calls, panicked := CreateNext(user, e.usercrons[id], e.envVars, from, calls, plan, others, rest, first);
        if panicked {
          return;
        }
      }
      left := multiset{};
    }

    /** The creations of all entries, for the identifiers asked for. */
    method CreateForEntries(user: string, entries: seq<CronEntry>, want: set<string>, ghost from: State,
                            ghost plan: multiset<Work>, ghost rest: multiset<Work>)
      returns (calls: seq<Step>, panicked: bool, ghost left: multiset<Work>)
      requires Valid()
      requires Progress(op, from, [], world, plan, CreatePlan(user, entries, want), rest)
      modifies this
      ensures Valid() && Made(calls, old(asked))
      ensures panicked <==> HasShortLine(entries, want)
      ensures Progress(op, from, calls, world, plan, left, rest)
      ensures !panicked ==> left == multiset{}
      ensures if panicked then StopsAtShortLine(user, entries, want, calls) else MadeFor(user, entries, want, calls)
    {
      hide NewJob, Next, Run, Legal, EntryPlan, StopsAtShortLine;
      calls, panicked := [], false;
      left := CreatePlan(user, entries, want);
      for i := 0 to |entries|
        invariant Valid() && left == CreatePlan(user, entries[i..], want)
        invariant Progress(op, from, calls, world, plan, left, rest)
        invariant !HasShortLine(entries[..i], want)
        invariant Made(calls, old(asked)) && MadeFor(user, entries[..i], want, calls)
      {
        var e := entries[i];
        ghost var next := CreatePlan(user, entries[i + 1..], want);
        SplitAtEntry(user, entries, i, want);
        ProgressFocus(op, from, calls, world, plan, EntryPlan(user, e, e.usercrons.Keys * want), next, rest);
        ghost var part := Works(calls) + EntryPlan(user, e, e.usercrons.Keys * want);
        ghost var was := calls;
        calls, panicked, left := CreateFrom(user, e, e.usercrons.Keys * want, from, calls, part, next + rest, old(asked));
        ProgressUnfocus(op, from, calls, world, part, left, next, rest);
        CallsOfEntry(user, entries, i, want, was, calls, left, panicked);
        left := left + next;
        if panicked {
          assert e in entries;
          return;
        }
      }
      assert entries[..|entries|] == entries;
    }

    /** The deletions, one after the other. */
    method DeleteAll(toDelete: seq<Work>, ghost from: State, before: seq<Step>, ghost plan: multiset<Work>, ghost first: nat)
      returns (calls: seq<Step>)
      requires Valid() && Made(before, first) && forall w | w in toDelete :: w.ToDelete?
      requires Progress(op, from, before, world, plan, multiset(toDelete), multiset{})
      modifies this
      ensures Valid() && Progress(op, from, calls, world, plan, multiset{}, multiset{})
      ensures Made(calls, first) && before <= calls && AreDeletions(calls[|before|..])
    {
      calls := before;
      for i := 0 to |toDelete|
        invariant Valid() && Made(calls, first) && before <= calls && AreDeletions(calls[|before|..])
        invariant Progress(op, from, calls, world, plan, multiset(toDelete[i..]), multiset{})
      {
        ghost var now := world;
        TailWork(toDelete, i);
        var step := DeleteCronJob(toDelete[i].name, toDelete[i].job);
        ProgressOne(op, from, calls, now, plan, multiset(toDelete[i + 1..]), multiset{}, step);
        calls := calls + [step];
      }
    }

    /** Creations before deletions; a panic ends it early. */
    method MakeCalls(user: string, entries: seq<CronEntry>, want: set<string>, toDelete: seq<Work>,
                     ghost plan: multiset<Work>)
      returns (calls: seq<Step>, panicked: bool)
      requires Valid() && forall w | w in toDelete :: w.ToDelete?
      requires plan == CreatePlan(user, entries, want) + multiset(toDelete) && plan <= world.pending
      modifies this
      ensures Valid() && panicked == HasShortLine(entries, want)
      ensures AllCalls(calls) && Legal(op, old(world), calls) && world == Run(op, old(world), calls)
      ensures Works(calls) <= plan && (!panicked ==> Works(calls) == plan)
      ensures Made(calls, old(asked)) && InOrder(user, entries, want, calls, panicked)
    {
      hide NewJob, Next, Enabled, EntryPlan, CreatePlan, Answered, MadeFor, StopsAtShortLine, HasShortLine;
      ghost var from := world;
      ghost var left;
      ghost var creations := CreatePlan(user, entries, want);
      ProgressFocus(op, from, [], world, plan, creations, multiset(toDelete), multiset{});
      calls, panicked, left := CreateForEntries(user, entries, want, from, creations, multiset(toDelete) + multiset{});
      ProgressUnfocus(op, from, calls, world, creations, left, multiset(toDelete), multiset{});
      if panicked {
        return;
      }
      assert left + multiset(toDelete) == multiset(toDelete);
      ghost var created := calls;
      calls := DeleteAll(toDelete, from, calls, plan, old(asked));
      assert calls[..|created|] == created;
    }

    /** Reading the crontab and listing the jobs. */
    method DecideCalls(user: string)
      returns (entries: seq<CronEntry>, want: set<string>, toDelete: seq<Work>, listed: bool)
      requires Valid()
      modifies this
      ensures Valid() && crontabs == old(crontabs) && world == Decided(op, old(world), user, listed)
      ensures listed == answers(old(asked)) && asked == old(asked) + 1
      ensures entries == EntriesIn(op, old(world), user)
      ensures want == if listed then Wanted(op, old(world), user) - Present(old(jobs), user) else Wanted(op, old(world), user)
      ensures CreatePlan(user, entries, want) + multiset(toDelete)
        == ReconcilePlan(op, old(jobs), ReadingOf(old(world), user), listed) <= world.pending
      ensures forall w | w in toDelete :: w.ToDelete?
    {
      var file := FileNow(user);
      var all;
      entries, all := GetFSEntryForUser(op, user, file);
      world := Next(op, world, ReadCrontab(user));
      var present;
      listed := Ask();
      present, toDelete := GetValidK8sCronjobsSchedulesForUser(user, all, listed);
      world := Next(op, world, ListJobs(Reading(user, file), listed));
      want := all.Keys - (set id | id in present);
      PlanAsListed(op, old(world), user, listed, present, toDelete);
    }

    /** One reconciliation: every step of it is a step of the state machine, and
        unless it panics it makes exactly the calls it decided on, entry by entry
        the creations and then the deletions.  A panic comes before any deletion,
        so that it spares every job there was. */
    method Reconcile(user: string) returns (log: seq<Step>, listed: bool, panicked: bool)
      requires Valid()
      modifies this
      ensures Valid() && Legal(op, old(world), log) && world == Run(op, old(world), log)
      ensures if panicked then ReconcileCut(op, old(world), user, listed, log)
        else ReconcileRun(op, old(world), user, listed, log)
      ensures panicked <==> Panics(op, old(world), user, listed)
      ensures InOrder(user, EntriesIn(op, old(world), user), ToMake(op, old(world), user, listed), log[2..], panicked)
      ensures CreatesFirst(log[2..])
      ensures panicked ==> AreCreations(log[2..]) && forall n | n in old(jobs) :: n in jobs && jobs[n] == old(jobs)[n]
      ensures listed == answers(old(asked)) && Made(log[2..], old(asked) + 1)
    {
      ghost var s := world;
      var file := FileNow(user);
      var entries, want, toDelete;
      entries, want, toDelete, listed := DecideCalls(user);
      var calls;
      calls, panicked := MakeCalls(user, entries, want, toDelete, ReconcilePlan(op, s.jobs, ReadingOf(s, user), listed));
      AfterListing(op, s, user, listed, calls);
      log := [ReadCrontab(user), ListJobs(Reading(user, file), listed)] + calls;
      OrderedCalls(op, s, user, listed, entries, want, calls, panicked);
    }

    /** The handler of a deletion: create the job anew for every entry that
        holds its identifier. */
    method HandleDelete(job: Job) returns (log: seq<Step>, panicked: bool)
      requires Valid() && Deleted(job) in world.pending
      modifies this
      ensures Valid() && Legal(op, old(world), log) && world == Run(op, old(world), log)
      ensures |log| >= 1 && log[0] == Handle(Deleted(job)) && AllCalls(log[1..])
      ensures !panicked ==> Works(log[1..]) == HandlerPlan(op, old(world), Deleted(job))
      ensures panicked <==> HasShortLine(EntriesIn(op, old(world), job.user), {job.identifier})
      ensures InOrder(job.user, EntriesIn(op, old(world), job.user), {job.identifier}, log[1..], panicked)
      ensures Made(log[1..], old(asked))
    {
      hide NewJob, Run, Legal, Works, EntryPlan, EntriesOf, Answered, StopsAtShortLine, CreatesThenDeletes;
      var entries, _ := GetFSEntryForUser(op, job.user, FileNow(job.user));
      ghost var plan := CreatePlan(job.user, entries, {job.identifier});
      assert plan == HandlerPlan(op, world, Deleted(job));
      world := Next(op, world, Handle(Deleted(job)));
      var calls;
      calls, panicked := MakeCalls(job.user, entries, {job.identifier}, [], plan);
      AfterFirst(op, old(world), Handle(Deleted(job)), calls);
      log := [Handle(Deleted(job))] + calls;
    }

    /** The handler of a creation: delete the job if no entry holds it. */
    method HandleCreate(name: nat, job: Job) returns (log: seq<Step>)
      requires Valid() && Created(name, job) in world.pending
      modifies this
      ensures Valid() && Legal(op, old(world), log) && world == Run(op, old(world), log)
      ensures |log| >= 1 && log[0] == Handle(Created(name, job)) && AllCalls(log[1..])
      ensures Works(log[1..]) == HandlerPlan(op, old(world), Created(name, job))
      ensures Made(log[1..], old(asked))
    {
      hide NewJob, Run, Legal, Works, EntryPlan, CreatePlan, EntriesOf, Answered;
      var _, userSchedules := GetFSEntryForUser(op, job.user, FileNow(job.user));
      world := Next(op, world, Handle(Created(name, job)));
      var calls := [];
      NoCalls(op, world, answers, asked);
      if job.identifier !in userSchedules {
        calls := DeleteUnwanted(name, job);
      }
      AfterFirst(op, old(world), Handle(Created(name, job)), calls);
      log := [Handle(Created(name, job))] + calls;
    }

    /** The decided deletion of a job that no entry holds. */
    method DeleteUnwanted(name: nat, job: Job) returns (calls: seq<Step>)
      requires Valid() && ToDelete(name, job) in world.pending
      modifies this
      ensures Valid() && AllCalls(calls) && Legal(op, old(world), calls) && world == Run(op, old(world), calls)
      ensures Works(calls) == multiset{ToDelete(name, job)} && Made(calls, old(asked))
    {
      ghost var now := world;
      var step := DeleteCronJob(name, job);
      OneCall(op, now, step);
      calls := [step];
    }
  }

  lemma NoCalls(op: Operator, s: State, answers: nat -> bool, first: nat)
    ensures AllCalls([]) && Legal(op, s, []) && Run(op, s, []) == s && Works([]) == multiset{}
    ensures Answered([], answers, first)
  {
  }

  lemma OneCall(op: Operator, s: State, step: Step)
    requires step.Call? && Enabled(op, s, step)
    ensures Legal(op, s, [step]) && Run(op, s, [step]) == Next(op, s, step)
    ensures Works([step]) == multiset{step.work}
  {
    assert [step][1..] == [];
  }

  lemma AfterFirst(op: Operator, s: State, first: Step, calls: seq<Step>)
    requires Enabled(op, s, first) && Legal(op, Next(op, s, first), calls)
    ensures Legal(op, s, [first] + calls) && Run(op, s, [first] + calls) == Run(op, Next(op, s, first), calls)
    ensures ([first] + calls)[1..] == calls
  {
    assert ([first] + calls)[1..] == calls;
  }

  lemma TailWork(list: seq<Work>, i: nat)
    requires i < |list|
    ensures multiset(list[i..]) == multiset(list[i + 1..]) + multiset{list[i]}
  {
    assert list[i..] == [list[i]] + list[i + 1..];
  }

  /** What was listed is what the state machine decides on. */
  lemma PlanAsListed(op: Operator, s: State, user: string, listed: bool, present: seq<string>, toDelete: seq<Work>)
    requires !listed ==> present == [] && toDelete == []
    requires listed ==> forall id :: id in present <==> id in Wanted(op, s, user) && id in Present(s.jobs, user)
    requires listed ==> multiset(toDelete) == DeletePlan(user, s.jobs, Wanted(op, s, user))
    ensures var want := Wanted(op, s, user) - (set id | id in present);
      && want == (if listed then Wanted(op, s, user) - Present(s.jobs, user) else Wanted(op, s, user))
      && CreatePlan(user, EntriesIn(op, s, user), want) + multiset(toDelete)
         == ReconcilePlan(op, s.jobs, ReadingOf(s, user), listed)
    ensures forall w | w in toDelete :: w.ToDelete?
  {
    assert forall w | w in toDelete :: w in multiset(toDelete);
    var want := Wanted(op, s, user) - (set id | id in present);
    assert listed ==> want == Wanted(op, s, user) - Present(s.jobs, user);
    assert !listed ==> want == Wanted(op, s, user);
  }

  lemma SplitAtEntry(user: string, entries: seq<CronEntry>, i: nat, want: set<string>)
    requires i < |entries|
    ensures var e := entries[i];
      CreatePlan(user, entries[i..], want)
      == EntryPlan(user, e, e.usercrons.Keys * want) + CreatePlan(user, entries[i + 1..], want)
    ensures HasShortLine(entries[..i + 1], want) <==>
      HasShortLine(entries[..i], want) || exists id | id in entries[i].usercrons.Keys * want :: |entries[i].usercrons[id]| <= 1
  {
    assert entries[i..][1..] == entries[i + 1..];
    assert entries[..i + 1] == entries[..i] + [entries[i]];
  }

  lemma OneMoreListed(user: string, seen: map<nat, Job>, n: nat, job: Job, wanted: set<string>)
    requires n !in seen && job.user == user
    ensures Present(seen[n := job], user) == Present(seen, user) + {job.identifier}
    ensures DeletePlan(user, seen[n := job], wanted) == DeletePlan(user, seen, wanted)
      + if job.identifier in wanted then multiset{} else multiset{ToDelete(n, job)}
  {
    OneMorePresent(user, seen, n, job);
    OneMoreToDelete(user, seen, n, job, wanted);
  }

  function Unwanted(user: string, jobs: map<nat, Job>, wanted: set<string>): set<Work> {
    set m | m in jobs && jobs[m].user == user && jobs[m].identifier !in wanted :: ToDelete(m, jobs[m])
  }

  lemma OneMoreToDelete(user: string, seen: map<nat, Job>, n: nat, job: Job, wanted: set<string>)
    requires n !in seen && job.user == user
    ensures DeletePlan(user, seen[n := job], wanted) == DeletePlan(user, seen, wanted)
      + if job.identifier in wanted then multiset{} else multiset{ToDelete(n, job)}
  {
    var more, w := seen[n := job], ToDelete(n, job);
    var a, b := Unwanted(user, seen, wanted), Unwanted(user, more, wanted);
    forall v ensures v in b <==> v in a || (v == w && job.identifier !in wanted) {
      UnwantedHolds(user, seen, wanted, v);
      UnwantedHolds(user, more, wanted, v);
    }
    UnwantedHolds(user, seen, wanted, w);
    assert job.identifier !in wanted ==> w !in a && b == a + {w};
    assert job.identifier in wanted ==> b == a;
    assert DeletePlan(user, seen, wanted) == multiset(a) && DeletePlan(user, more, wanted) == multiset(b);
  }

  lemma UnwantedHolds(user: string, jobs: map<nat, Job>, wanted: set<string>, v: Work)
    ensures v in Unwanted(user, jobs, wanted) <==>
      v.ToDelete? && v.name in jobs && v.job == jobs[v.name] && v.job.user == user && v.job.identifier !in wanted
  {
  }

  lemma OneMorePresent(user: string, seen: map<nat, Job>, n: nat, job: Job)
    requires n !in seen && job.user == user
    ensures Present(seen[n := job], user) == Present(seen, user) + {job.identifier}
  {
    var more := seen[n := job];
    assert more[n] == job && forall m | m in seen :: more[m] == seen[m];
  }

  lemma SameUserSamePlan(user: string, a: map<nat, Job>, b: map<nat, Job>, wanted: set<string>)
    requires forall n | n in a :: n in b && a[n] == b[n]
    requires forall n | n in b && b[n].user == user :: n in a
    ensures Present(a, user) == Present(b, user) && DeletePlan(user, a, wanted) == DeletePlan(user, b, wanted)
  {
    assert forall n :: n in a && a[n].user == user <==> n in b && b[n].user == user;
  }
}
