/**
 The job that is created for one crontab line: identifier, schedule, command,
 container environment and time zone.
 */
module CronJobs {
  import opened Text
  import opened Environment
  import opened Fsclient
  import opened Schedule

  datatype EnvVar = EnvVar(name: string, value: string)

  /** `env` is the container environment as a process sees it. */
  datatype Job = Job(
    user: string, identifier: string, schedule: string, command: string, env: Env, timezone: Option<string>)

  const COMMAND_VARIABLE := "ODP-CRON-POD-CMD"
  const USERNAME_VARIABLE := "ODP-CRON-POD-USERNAME"

  /** A `TZ` assignment wins over `CRON_TZ`, even when its value is empty. */
  function SelectedTimezone(op: Operator, env: Env): string {
    if "TZ" in env then env["TZ"]
    else if "CRON_TZ" in env then env["CRON_TZ"]
    else op.timezone
  }

  /** What a process sees of a list of variables: a later entry wins. */
  function Effective(list: seq<EnvVar>): Env {
    if list == [] then map[]
    else Effective(list[..|list| - 1])[list[|list| - 1].name := list[|list| - 1].value]
  }

  /** Those of the named variables that have a value. */
  function WithValue(env: Env, names: set<string>): Env {
    map k | k in names && k in env && env[k] != "" :: env[k]
  }

  /** The crontab's variables that have a value, overridden by the command and
      the user name. */
  function ContainerEnv(env: Env, command: string, user: string): Env {
    WithValue(env, env.Keys)[COMMAND_VARIABLE := command][USERNAME_VARIABLE := user]
  }

  /** In whatever order the map yields its names, the container sees the same
      environment, and a crontab cannot override the two reserved names. */
  method MergeEnvVariables(env: Env, command: string, user: string) returns (res: seq<EnvVar>)
    ensures Effective(res) == ContainerEnv(env, command, user)
  {
    res := [];
    var todo := env.Keys;
    while todo != {}
      invariant todo <= env.Keys
      invariant Effective(res) == WithValue(env, env.Keys - todo)
      decreases |todo|
    {
      var k :| k in todo;
      WithOneMore(env, env.Keys - todo, k);
      assert env.Keys - (todo - {k}) == (env.Keys - todo) + {k};
      todo := todo - {k};
      if |env[k]| != 0 {
        EffectiveAppend(res, EnvVar(k, env[k]));
        res := res + [EnvVar(k, env[k])];
      }
    }
    assert env.Keys - todo == env.Keys;
    EffectiveAppend(res, EnvVar(COMMAND_VARIABLE, command));
    res := res + [EnvVar(COMMAND_VARIABLE, command)];
    EffectiveAppend(res, EnvVar(USERNAME_VARIABLE, user));
    res := res + [EnvVar(USERNAME_VARIABLE, user)];
  }

  lemma WithOneMore(env: Env, names: set<string>, k: string)
    requires k in env
    ensures WithValue(env, names + {k}) == if env[k] != "" then WithValue(env, names)[k := env[k]] else WithValue(env, names)
  {
  }

  lemma EffectiveAppend(list: seq<EnvVar>, v: EnvVar)
    ensures Effective(list + [v]) == Effective(list)[v.name := v.value]
  {
    assert (list + [v])[..|list|] == list;
  }

  /** The job `createCronJob` submits; `None` when it panics on the line. */
  ghost function NewJob(op: Operator, user: string, line: string, env: Env): (job: Option<Job>)
    ensures job.Some? ==> job.value.user == user && job.value.identifier == Identifier(op, user, line, env)
  {
    match CommandOf(line)
    case None => None
    case Some(command) =>
      var tz := SelectedTimezone(op, env);
      Some(Job(user, Identifier(op, user, line, env), ScheduleOf(line), command,
               ContainerEnv(env, command, user), if tz != "" then Some(tz) else None))
  }

  method BuildJob(op: Operator, user: string, line: string, env: Env) returns (job: Option<Job>)
    ensures job == NewJob(op, user, line, env)
  {
    var schedule := ScheduleOf(line);
    var command := CommandOf(line);
    if command.None? {
      return None;
    }
    var mapAsString := ConvertMapToString(env);
    var identifier := op.md5(user + line + op.image + mapAsString);
    var variables := MergeEnvVariables(env, command.value, user);
    var tz := SelectedTimezone(op, env);
    job := Some(Job(user, identifier, schedule, command.value, Effective(variables),
                    if tz != "" then Some(tz) else None));
  }

  /** A line of at most one character is the only one that cannot be made into
      a job. */
  lemma OnlyShortLinesPanic(op: Operator, user: string, line: string, env: Env)
    ensures NewJob(op, user, line, env).None? <==> |line| <= 1
  {
    CommandIsRemainder(line);
  }

  /** A job's schedule and command make up its line unless the schedule occurs
      in it twice. */
  lemma JobCarriesLine(op: Operator, user: string, line: string, env: Env, job: Job)
    requires NewJob(op, user, line, env) == Some(job) && job.schedule != ""
    ensures job.schedule + job.command == line <==> forall i | i >= |job.schedule| :: !OccursAt(line, job.schedule, i)
  {
    ScheduleAndCommandRebuildLine(line);
  }

  /** The schedule of a job is the five fields its line begins with, or else the
      longest named schedule there, and the command is what follows it.  A line
      that begins with neither has no schedule and its second character for a
      command. */
  lemma JobIsCutAtSchedule(op: Operator, user: string, line: string, env: Env, job: Job)
    requires NewJob(op, user, line, env) == Some(job)
    ensures IsScheduleOf(line, job.schedule)
    ensures if job.schedule != "" then FollowsSchedule(line, job.schedule, job.command)
      else |line| > 1 && job.command == [line[1]]
  {
    assert job.schedule == ScheduleOf(line) && CommandOf(line) == Some(job.command);
    ScheduleIsTheMatch(line);
    CommandFollows(line);
  }

  /** The line `5 4 * * * a` becomes a job that runs `a` on `5 4 * * * `. */
  lemma JobSpelledOut(op: Operator, user: string, line: string, env: Env, job: Job)
    requires line == "5 4 * * * a" && NewJob(op, user, line, env) == Some(job)
    ensures job.schedule == "5 4 * * * " && job.command == "a"
  {
    assert job.schedule == ScheduleOf(line) && CommandOf(line) == Some(job.command);
    hide NewJob;
    FiveFourEveryDay(line);
  }

  /** The container sees the command, the user, and exactly those variables of
      the crontab that have a value. */
  lemma ContainerSees(op: Operator, user: string, line: string, env: Env, job: Job, cmd: string, name: string)
    requires NewJob(op, user, line, env) == Some(job)
    requires cmd == "ODP-CRON-POD-CMD" && name == "ODP-CRON-POD-USERNAME"
    ensures job.env.Keys == {cmd, name} + (set k | k in env && env[k] != "")
    ensures job.env[cmd] == job.command && job.env[name] == user
    ensures forall k | k in job.env && k != cmd && k != name :: job.env[k] == env[k] != ""
  {
    assert |cmd| != |name| && COMMAND_VARIABLE == cmd && USERNAME_VARIABLE == name;
    Overridden(env, cmd, job.command, name, user);
  }

  lemma Overridden(env: Env, a: string, x: string, b: string, y: string)
    requires a != b
    ensures var seen := WithValue(env, env.Keys)[a := x][b := y];
      && seen.Keys == {a, b} + (set k | k in env && env[k] != "") && seen[a] == x && seen[b] == y
      && forall k | k in seen && k != a && k != b :: seen[k] == env[k] != ""
  {
  }

  /** The time zone is the value of `TZ` where that is assigned, else of
      `CRON_TZ`, else the operator's own; an empty value means none, so that an
      empty `TZ` silences a `CRON_TZ`. */
  lemma TimezonePrecedence(op: Operator, user: string, line: string, env: Env, job: Job)
    requires NewJob(op, user, line, env) == Some(job)
    ensures forall tz | "TZ" in env && tz == env["TZ"] :: job.timezone == if tz == "" then None else Some(tz)
    ensures forall tz | "TZ" !in env && "CRON_TZ" in env && tz == env["CRON_TZ"] ::
      job.timezone == if tz == "" then None else Some(tz)
    ensures "TZ" !in env && "CRON_TZ" !in env ==>
      job.timezone == if op.timezone == "" then None else Some(op.timezone)
  {
  }
}
