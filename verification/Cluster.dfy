/**
 The operator and its cluster as a state machine.  A state holds the crontabs,
 the labelled cron jobs, and the work that is under way: watch events nobody
 has handled yet and API calls somebody has decided on but not made yet.
 Reconciliation and the two event handlers are not atomic: a crontab is read,
 jobs are listed, and each call is made in a step of its own, interleaved with
 everything else.
 */
module Cluster {
  import opened Environment
  import opened Fsclient
  import opened CronJobs

  /** `Created` and `Deleted` are watch events; `ToCreate` and `ToDelete` are
      decided API calls.  Job names are never used twice. */
  datatype Work =
    | Created(name: nat, job: Job)
    | Deleted(job: Job)
    | ToCreate(user: string, line: string, env: Env)
    | ToDelete(name: nat, job: Job)

  /** A reconciliation that has read the crontab and not listed the jobs yet. */
  datatype Reading = Reading(user: string, file: CrontabFile)

  /** `settled` is history: the users whose last reconciliation listed the jobs
      under the crontab they still have, with no failed call since. */
  datatype State = State(
    crontabs: map<string, CrontabFile>, jobs: map<nat, Job>, nextName: nat,
    pending: multiset<Work>, readings: multiset<Reading>, settled: set<string>)

  datatype Step =
    | Edit(user: string, file: CrontabFile)
    | ExternalCreate(job: Job)
    | ExternalDelete(name: nat)
    | ReadCrontab(user: string)
    | ListJobs(reading: Reading, ok: bool)
    | Handle(work: Work)
    | Call(work: Work, ok: bool)
    | Restart

  function WorkUser(w: Work): string {
    if w.ToCreate? then w.user else w.job.user
  }

  function FileOf(s: State, user: string): CrontabFile {
    if user in s.crontabs then s.crontabs[user] else Missing
  }

  ghost function EntriesIn(op: Operator, s: State, user: string): seq<CronEntry> {
    EntriesOf(op, user, FileOf(s, user))
  }

  /** The identifiers a user's crontab asks for. */
  ghost function Wanted(op: Operator, s: State, user: string): set<string> {
    AllUsercrons(op, user, FileOf(s, user)).Keys
  }

  /** The identifiers of a user's jobs. */
  function Present(jobs: map<nat, Job>, user: string): set<string> {
    set n | n in jobs && jobs[n].user == user :: jobs[n].identifier
  }

  // ------------------------------------------------------------ decided calls

  /** One creation for each of the identifiers, from one entry. */
  ghost function EntryPlan(user: string, e: CronEntry, ids: set<string>): multiset<Work>
    requires ids <= e.usercrons.Keys
    decreases |ids|
  {
    if ids == {} then multiset{}
    else
      var id :| id in ids;
      EntryPlan(user, e, ids - {id}) + multiset{ToCreate(user, e.usercrons[id], e.envVars)}
  }

  /** One creation for each entry and each of the identifiers it holds. */
  ghost function CreatePlan(user: string, entries: seq<CronEntry>, ids: set<string>): multiset<Work> {
    if entries == [] then multiset{}
    else EntryPlan(user, entries[0], entries[0].usercrons.Keys * ids) + CreatePlan(user, entries[1..], ids)
  }

  /** One deletion for each job of the user that has none of the identifiers. */
  ghost function DeletePlan(user: string, jobs: map<nat, Job>, ids: set<string>): multiset<Work> {
    multiset(set n | n in jobs && jobs[n].user == user && jobs[n].identifier !in ids :: ToDelete(n, jobs[n]))
  }

  /** What a reconciliation decides on once it has listed the jobs; a failed
      listing is taken for an empty one. */
  ghost function ReconcilePlan(op: Operator, jobs: map<nat, Job>, r: Reading, ok: bool): multiset<Work> {
    var entries, all := EntriesOf(op, r.user, r.file), AllUsercrons(op, r.user, r.file);
    if ok then CreatePlan(r.user, entries, all.Keys - Present(jobs, r.user)) + DeletePlan(r.user, jobs, all.Keys)
    else CreatePlan(r.user, entries, all.Keys)
  }

  /** What the handler of an event decides on: recreate a deleted job for each
      entry that holds it, delete a created job that no entry holds. */
  ghost function HandlerPlan(op: Operator, s: State, w: Work): multiset<Work>
    requires w.Created? || w.Deleted?
  {
    if w.Deleted? then CreatePlan(w.job.user, EntriesIn(op, s, w.job.user), {w.job.identifier})
    else if w.job.identifier in Wanted(op, s, w.job.user) then multiset{}
    else multiset{ToDelete(w.name, w.job)}
  }

  // -------------------------------------------------------------- transitions

  ghost function AddJob(s: State, job: Job): State {
    s.(jobs := s.jobs[s.nextName := job], nextName := s.nextName + 1,
       pending := s.pending + multiset{Created(s.nextName, job)})
  }

  ghost function DropJob(s: State, name: nat): State {
    if name in s.jobs then
      s.(jobs := s.jobs - {name}, pending := s.pending + multiset{Deleted(s.jobs[name])})
    else s
  }

  ghost function StartupEvents(jobs: map<nat, Job>): multiset<Work> {
    multiset(set n | n in jobs :: Created(n, jobs[n]))
  }

  ghost predicate Enabled(op: Operator, s: State, step: Step) {
    match step
    case ListJobs(reading, _) => reading in s.readings
    case Handle(w) => w in s.pending && (w.Created? || w.Deleted?)
    case Call(w, ok) =>
      w in s.pending && (w.ToCreate? || w.ToDelete?)
      && (ok && w.ToCreate? ==> NewJob(op, w.user, w.line, w.env).Some?)
    case _ => true
  }

  ghost function Next(op: Operator, s: State, step: Step): State
    requires Enabled(op, s, step)
  {
    match step
    case Edit(user, file) => s.(crontabs := s.crontabs[user := file], settled := s.settled - {user})
    case ExternalCreate(job) => AddJob(s, job)
    case ExternalDelete(name) => DropJob(s, name)
    case ReadCrontab(user) => s.(readings := s.readings + multiset{Reading(user, FileOf(s, user))})
    case ListJobs(r, ok) =>
      s.(readings := s.readings - multiset{r},
         pending := s.pending + ReconcilePlan(op, s.jobs, r, ok),
         settled := if ok && r.file == FileOf(s, r.user) then s.settled + {r.user} else s.settled)
    case Handle(w) => s.(pending := s.pending - multiset{w} + HandlerPlan(op, s, w))
    case Call(w, ok) =>
      var s' := s.(pending := s.pending - multiset{w});
      if !ok then s'.(settled := s.settled - {WorkUser(w)})
      else if w.ToCreate? then AddJob(s', NewJob(op, w.user, w.line, w.env).value)
      else DropJob(s', w.name)
    case Restart =>
      s.(pending := StartupEvents(s.jobs), readings := multiset{}, settled := {})
  }

  ghost predicate Init(s: State) {
    && s.settled == {} && s.readings == multiset{} && s.pending == StartupEvents(s.jobs)
    && forall n | n in s.jobs :: n < s.nextName
  }

  ghost predicate Legal(op: Operator, s: State, steps: seq<Step>)
    decreases |steps|
  {
    steps == [] || (Enabled(op, s, steps[0]) && Legal(op, Next(op, s, steps[0]), steps[1..]))
  }

  ghost function Run(op: Operator, s: State, steps: seq<Step>): State
    requires Legal(op, s, steps)
    decreases |steps|
  {
    if steps == [] then s else Run(op, Next(op, s, steps[0]), steps[1..])
  }

  lemma {:induction false} RunAppend(op: Operator, s: State, steps: seq<Step>, step: Step)
    requires Legal(op, s, steps) && Enabled(op, Run(op, s, steps), step)
    ensures Legal(op, s, steps + [step])
    ensures Run(op, s, steps + [step]) == Next(op, Run(op, s, steps), step)
    decreases |steps|
  {
    if steps == [] {
      assert [step][1..] == [];
    } else {
      RunAppend(op, Next(op, s, steps[0]), steps[1..], step);
      assert (steps + [step])[1..] == steps[1..] + [step];
    }
  }

  // ------------------------------------------------------------ about plans

  /** The plan of an entry does not depend on the order its identifiers are
      taken in. */
  lemma {:induction false} EntryPlanWithout(user: string, e: CronEntry, ids: set<string>, id: string)
    requires ids <= e.usercrons.Keys && id in ids
    ensures EntryPlan(user, e, ids)
         == EntryPlan(user, e, ids - {id}) + multiset{ToCreate(user, e.usercrons[id], e.envVars)}
    decreases |ids|
  {
    var k :| k in ids && EntryPlan(user, e, ids)
      == EntryPlan(user, e, ids - {k}) + multiset{ToCreate(user, e.usercrons[k], e.envVars)};
    if k != id {
      EntryPlanWithout(user, e, ids - {k}, id);
      EntryPlanWithout(user, e, ids - {id}, k);
      assert ids - {k} - {id} == ids - {id} - {k};
    }
  }

  lemma {:induction false} EntryPlanHolds(user: string, e: CronEntry, ids: set<string>, w: Work)
    requires ids <= e.usercrons.Keys
    ensures w in EntryPlan(user, e, ids) <==>
      exists id :: id in ids && w == ToCreate(user, e.usercrons[id], e.envVars)
    decreases |ids|
  {
    if ids != {} {
      var id :| id in ids && EntryPlan(user, e, ids)
        == EntryPlan(user, e, ids - {id}) + multiset{ToCreate(user, e.usercrons[id], e.envVars)};
      EntryPlanHolds(user, e, ids - {id}, w);
    }
  }

  /** A planned creation is one of an identifier asked for, and each identifier
      that is asked for and held has one. */
  lemma {:induction false} CreatePlanHolds(op: Operator, user: string, entries: seq<CronEntry>, ids: set<string>)
    requires KeysAgree(op, user, entries)
    ensures forall w | w in CreatePlan(user, entries, ids) ::
      w.ToCreate? && w.user == user && Identifier(op, user, w.line, w.env) in ids
    ensures forall id | id in ids && Holders(entries, id) > 0 ::
      exists w :: w in CreatePlan(user, entries, ids) && w.ToCreate? && Identifier(op, user, w.line, w.env) == id
  {
    if entries != [] {
      var e, now := entries[0], entries[0].usercrons.Keys * ids;
      TailAgrees(op, user, entries);
      CreatePlanHolds(op, user, entries[1..], ids);
      forall w | w in EntryPlan(user, e, now)
        ensures w.ToCreate? && w.user == user && Identifier(op, user, w.line, w.env) in ids
      {
        EntryPlanHolds(user, e, now, w);
      }
      forall id | id in ids && Holders(entries, id) > 0
        ensures exists w :: w in CreatePlan(user, entries, ids) && w.ToCreate? && Identifier(op, user, w.line, w.env) == id
      {
        if id in e.usercrons {
          var w := ToCreate(user, e.usercrons[id], e.envVars);
          EntryPlanHolds(user, e, now, w);
          assert w in EntryPlan(user, e, now) && Identifier(op, user, w.line, w.env) == id;
        } else {
          var w :| w in CreatePlan(user, entries[1..], ids) && w.ToCreate? && Identifier(op, user, w.line, w.env) == id;
          assert w in CreatePlan(user, entries, ids);
        }
      }
    }
  }

  lemma TailAgrees(op: Operator, user: string, entries: seq<CronEntry>)
    requires entries != [] && KeysAgree(op, user, entries)
    ensures KeysAgree(op, user, entries[1..])
  {
    forall j, id | 0 <= j < |entries[1..]| && id in entries[1..][j].usercrons
      ensures Identifier(op, user, entries[1..][j].usercrons[id], entries[1..][j].envVars) == id
    {
      assert entries[1..][j] == entries[j + 1];
    }
  }
}
