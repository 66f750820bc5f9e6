# Verification of the ODP cron operator

The operator turns users' crontabs into Kubernetes cron jobs and keeps the two
in step. This project models its logic in Dafny and proves what it keeps true:

- **The crontab scanner** (`CrontabSyntax`, `Environment`, `Fsclient`): which
  lines are comments, assignments and commands, and how commands are grouped
  under snapshots of an environment that keeps changing. The MD5 digest is an
  arbitrary function on strings.
- **Schedules and jobs** (`Schedule`, `CronJobs`): how a line is cut into a
  schedule and a command, and what job is made of it.
- **The control loop** (`Cluster`, `SelfHealing`, `Convergence`, `Startup`): a
  state machine of crontabs, cron jobs, unhandled watch events and decided but
  unmade API calls. Crontab edits, external creation and deletion of jobs, both event
  handlers, the reading, listing and calling steps of reconciliations, failing
  calls and restarts interleave freely.
- **The reconciler** (`Calls`, `Reconciliation`, `Reconciler`): `Reconcile` and
  the handlers as loops over an API server whose answers, success or failure, are
  any sequence. Each returns the steps it took and is proved to be a run of the
  state machine, in the order of the code; what a reconciliation achieves is then
  proved for every order and failure of its calls.
- **The polling watcher** (`Paths`, `Poll`, `PathEvents`, `Matching`, `Replay`,
  `Sources`, `FileTree`, `Watching`): comparing snapshots with rename and move
  matching, in every visiting order; the listing of directory trees; the `Watcher`
  class and its cycle; and, in `Notifications`, which reconciliations a cycle makes.
- **The cron wrapper** (`Wrapper`): its retry loop and its command escaping.

The main results:

- `SelfHealing.SettledAndQuietMeansConverged` (safety over every run),
  `Convergence.MaximalRunsConverge` (bounded convergence),
  `Convergence.RemovalIsMadeUpPerHolder` (how many jobs there are once the events
  are handled) and `Startup.RestartRemovesUnwanted`;
- `Reconciler.CronJobReconciler.Reconcile` (the calls, their order and what a
  panic spares), `Reconciliation.ReconcileIsMonotone` and its neighbours
  (reconciling under failures);
- `Fsclient.EntriesAreFaithful` and `Fsclient.IdentifiersAgree` (what the scanner
  means, and why the creator finds the scanner's keys again),
  `Fsclient.ReplacementChangesIdentifier` and `Fsclient.OwnersCoincide` (what an
  identifier tells apart), `CronJobs.JobIsCutAtSchedule`;
- `Poll.EventAccounting`, `PathEvents.EveryPathIsTold`,
  `Replay.ReplayGivesNewMetas`, `Replay.StaleUntilAltered` and
  `Sources.MetasAlwaysComeOutRight` (what the events tell and what they do not);
- `FileTree.WalkListsExactly`, `Watching.RetrievedShowsExactly` and
  `Notifications.WatchOnce` (from a changed directory to the API calls).

What the proofs found the code not to do, each with its exact condition:

- A job's deletion is made up for once per crontab section that holds its
  identifier: once all events are handled the number of jobs is restored if and
  only if exactly one section does (`RemovalIsMadeUpPerHolder`;
  `RestoredEnvironmentExample` has a crontab where two do). A failed listing adds
  every job again (`ReconcileAddsPerEntry`).
- `@daily` and its like are honoured if and only if the line has fewer than five
  words that end in a blank (`NamedScheduleHonoured`, `NamedScheduleSwallowed`).
- A command is cut off where its schedule text occurs again
  (`ScheduleAndCommandRebuildLine`, `RepeatedScheduleTruncates`).
- A command line panics the operator if and only if it is a single character
  (`CommandIsRemainder`, `OneCharacterPanics`); creations up to there have been
  made, and no deletion (`Reconcile`).
- The environment is written into the identifier without separators. Replacing
  one assignment by another, beside any others, is missed if and only if the two
  read the same around what is written between them
  (`ReplacementChangesIdentifier`); from `A=BC` to `AB=C` is missed
  (`RegroupedExample`), a change of one value never (`ValueChangeChangesIdentifier`).
- Nor is the end of the user name or of the line marked: two lines share an
  identifier if and only if one goes on with what follows the other
  (`OwnersCoincide`, `IdentifiersCoincide`, `LineBoundaryIsNotMarked`); different
  lines of one user under one environment never do (`LinesAreToldApart`), nor one
  line of different users (`UsersAreToldApart`).
- A file that is renamed and changed between two polls is reported with its old
  metadata (`ReplayGivesNewMetas`, `MetasAlwaysComeOutRight`, `RenamedAndWritten`),
  and stays recorded so until a later cycle sees it altered (`StaleUntilAltered`).
- `RemoveRecursive` and `Ignore` match by string prefix, so removing `/a/b` also
  drops `/a/bc` (`TreeRemovalIsByPrefix`, `TreeRemovalTakesSibling`).
- A cycle asks for no reconciliation if and only if it saw no directory's
  modification time change (`NothingAsked`), so a crontab rewritten in place is
  missed (`RewriteInPlaceIsMissed`).

Where a comment and the code disagree the code is followed: the retry loop says
it sleeps two seconds before each iteration, but its sleeps grow by two seconds.

## Model

| member | source | states |
|---|---|---|
| CrontabSyntax.IsSkipped | internal/fsclient/fsclient.go:57-58 | decides the comment-or-blank pattern: true exactly when some way of matching it exists |
| CrontabSyntax.IsAEnvVar | internal/fsclient/fsclient.go:41-49 | decides the assignment pattern under every way its repetitions can split the line |
| CrontabSyntax.Classify | internal/fsclient/fsclient.go:83-106 | comments win over assignments, assignments over commands; a name never contains an equals sign |
| CrontabSyntax.AssignmentRoundTrip | internal/fsclient/fsclient.go:83-89 | a name and a value come back unchanged whatever tabs, newlines, form feeds, carriage returns and spaces surround the name and whatever spaces, tabs and newlines precede the value |
| CrontabSyntax.SpacedAssignment | internal/fsclient/fsclient.go:87-89 | `A = 1` assigns `1` to `A` |
| CrontabSyntax.LaterEqualsDoNotMatter | internal/fsclient/fsclient.go:41-49 | a line whose first word has no equals sign and is not followed by one is a command, whatever equals signs come later |
| CrontabSyntax.CommentsAreSkipped | internal/fsclient/fsclient.go:57-58 | blanks alone, or before a `#` and anything, are skipped |
| Environment.SortedListingUnique | internal/fsclient/fsclient.go:135-139 | two strictly sorted listings of the same names are equal, under the total order of sort.Strings |
| Text.LessAtFirstDifference | internal/fsclient/fsclient.go:139 | the order of sort.Strings: the first difference decides, by the smaller character or the end of the shorter string |
| Environment.SortStrings | internal/fsclient/fsclient.go:139 | sorting yields a sorted permutation |
| Environment.ConvertMapToString | internal/fsclient/fsclient.go:132-144 | the loop, visiting the map in any order, yields one string determined by the map |
| Environment.TwoVariablesInOrder | internal/fsclient/fsclient.go:139-142 | `A=1` and `B=2` make up the string `A1B2` |
| Environment.MapToStringIsCanonical | internal/fsclient/fsclient.go:132-144 | every sorted enumeration of the names renders to that same string |
| Environment.OneValueChangeShows | internal/fsclient/fsclient.go:132-144 | two environments that differ in one value have different strings, and only then |
| Environment.MapToStringNotInjective | internal/fsclient/fsclient.go:140-142 | concrete different environments with one string |
| Environment.ReplacementShows | internal/fsclient/fsclient.go:132-144 | replacing one assignment by another, beside any others, leaves the string alone if and only if the two read the same around what is written for the names that sort between them |
| Fsclient.GetFSEntryForUser | internal/fsclient/fsclient.go:51-118 | the scan loop computes the scan state line by line; a missing, unreadable or directory crontab gives nothing |
| Fsclient.KeySpelledOut | internal/fsclient/fsclient.go:102-106 | with the text itself for a digest, a two-line crontab of `alice` is filed under user, line, image and environment, in that order |
| Fsclient.ScanIsFaithful | internal/fsclient/fsclient.go:81-110 | after every prefix: a previous command line is remembered exactly when the current section holds a command, sections are one per block, each holds exactly the identifiers of its block's commands, and under each the text of the last such command |
| Fsclient.EntriesAreFaithful | internal/fsclient/fsclient.go:51-118 | for any digest: the identifier of every command is held by the section of its block, under the fold of all assignments above it; nothing else is held; the text under an identifier is that of the block's last command with it; the second result is the union |
| Fsclient.TextIsFiled | internal/fsclient/fsclient.go:102-106 | with a digest that does not collide, every command's own text is filed under its identifier in the section of its block |
| Fsclient.BlocksEndAtAssignments | internal/fsclient/fsclient.go:86-93 | two commands are in one section exactly when no assignment is between them |
| Fsclient.LastAssignmentWins | internal/fsclient/fsclient.go:86-96 | a command's environment has a name exactly when it is assigned above, with the value of the last assignment |
| Fsclient.IdentifiersAgree | internal/controller/cronjob_controller.go:155-159 | the identifier computed anew from a filed line and its section's environment is its key; the second result has exactly the keys some section holds |
| Fsclient.SkippedLinesDoNotMatter | internal/fsclient/fsclient.go:83 | crontabs that agree on their significant lines give equal results, wherever comments and blank lines are inserted |
| Fsclient.RestoredEnvironmentHasTwoHolders | internal/fsclient/fsclient.go:86-93 | a command repeated after its environment was changed and restored is held by two sections under one identifier |
| Fsclient.RestoredEnvironmentExample | internal/fsclient/fsclient.go:86-93 | a six-line crontab whose first command has two holders |
| Fsclient.ValueChangeChangesIdentifier | internal/fsclient/fsclient.go:102-103 | with a digest that does not collide, the identifier changes exactly when the changed value differs |
| Fsclient.ReplacementChangesIdentifier | internal/fsclient/fsclient.go:102-103 | with a digest that does not collide, replacing one assignment by another changes the identifier exactly when it shows in the string |
| Fsclient.IdentifiersCoincide | internal/fsclient/fsclient.go:102-103 | two lines under two environments share an identifier if and only if the longer line continues the shorter with what the image and environment of the shorter begin with |
| Fsclient.OwnersCoincide | internal/fsclient/fsclient.go:102-103 | the lines of two users share an identifier if and only if user and line of the one continue user and line of the other with what its image and environment begin with |
| Fsclient.UsersAreToldApart | internal/fsclient/fsclient.go:102-103 | one line under one environment has the same identifier for two users exactly when they are the same user |
| Fsclient.LinesAreToldApart | internal/fsclient/fsclient.go:102-103 | under one environment different lines have different identifiers, and only they |
| Fsclient.LineBoundaryIsNotMarked | internal/fsclient/fsclient.go:102-103 | for every line, image and name, two different lines under different environments that share an identifier |
| Fsclient.RegroupedAssignmentIsNotSeen | internal/fsclient/fsclient.go:102-103 | an edit of `A=BC` to `AB=C` changes the environment of a command and no identifier |
| Fsclient.RegroupedExample | internal/fsclient/fsclient.go:102-103 | two crontabs of two lines each that show it |
| Schedule.FieldEnd | internal/controller/cronjob_controller.go:58 | one field can end in one place only, whatever way the repetitions are tried |
| Schedule.FieldSpelledOut | internal/controller/cronjob_controller.go:58 | a field is any blanks, a word and exactly one blank, said in characters |
| Schedule.FieldsEnd | internal/controller/cronjob_controller.go:58 | the match of n fields is unique, and found exactly when it exists |
| Schedule.AtEnd | internal/controller/cronjob_controller.go:58 | the greedy named-schedule match is the longest one |
| Schedule.AtSpelledOut | internal/controller/cronjob_controller.go:58 | a named schedule is any blanks, an at sign and the whole word after it, said in characters |
| Schedule.ScheduleEnd | internal/controller/cronjob_controller.go:152-153 | the five-field match where there is one, otherwise exactly the longest named-schedule match, and none only if neither form matches |
| Schedule.ScheduleIsTheMatch | internal/controller/cronjob_controller.go:152-153 | the schedule is the five fields the line begins with, else the longest named schedule there, else empty |
| Schedule.ScheduleIsUnique | internal/controller/cronjob_controller.go:152-153 | at most one string is that |
| Schedule.CommandIsRemainder | internal/controller/cronjob_controller.go:154 | the command is the rest of the line up to the next occurrence of the schedule; taking it fails exactly on lines of at most one character |
| Schedule.ScheduleAndCommandRebuildLine | internal/controller/cronjob_controller.go:152-154 | schedule and command make up the line if and only if the schedule does not occur again |
| Schedule.NamedScheduleHonoured | internal/controller/cronjob_controller.go:58 | a named schedule is used if and only if the line has no five fields |
| Schedule.NamedScheduleSwallowed | internal/controller/cronjob_controller.go:58 | a concrete named schedule that is not honoured |
| Schedule.RepeatedScheduleTruncates | internal/controller/cronjob_controller.go:154 | a concrete command that loses its tail |
| Schedule.SecondBlankIsTheCommands | internal/controller/cronjob_controller.go:152-154 | of two blanks before the command of a concrete line the schedule takes one |
| CronJobs.MergeEnvVariables | internal/controller/cronjob_controller.go:293-315 | in any visiting order the list means one container environment |
| CronJobs.ContainerSees | internal/controller/cronjob_controller.go:293-315 | the container sees the command under ODP-CRON-POD-CMD, the user under ODP-CRON-POD-USERNAME and exactly the crontab variables that have a value; the two names cannot be overridden |
| CronJobs.TimezonePrecedence | internal/controller/cronjob_controller.go:281-291 | TZ wins over CRON_TZ and both over the operator's own zone; an empty value means no time zone |
| CronJobs.BuildJob | internal/controller/cronjob_controller.go:150-200 | builds the specified job, or panics |
| CronJobs.JobIsCutAtSchedule | internal/controller/cronjob_controller.go:152-172 | a job's schedule is the one match its line begins with, and its command what follows up to the next place where that schedule occurs; without a match the second character |
| CronJobs.JobSpelledOut | internal/controller/cronjob_controller.go:152-172 | the job of `5 4 * * * a` runs `a` on `5 4 * * * ` |
| CronJobs.JobCarriesLine | internal/controller/cronjob_controller.go:152-172 | the job's schedule and command make up its line unless the schedule occurs twice |
| Cluster.CreatePlanHolds | internal/controller/cronjob_controller.go:78-88 | each planned creation is of an identifier asked for, and each such identifier that is held is planned |
| SelfHealing.StepKeepsInv | internal/controller/cronjob_controller.go:65-145 | every step keeps: for settled users each wanted identifier has a job, a deletion event or a decided creation, and each unwanted job has a creation event or a decided deletion |
| SelfHealing.DeletedIsReplanned | internal/controller/cronjob_controller.go:116-131 | the deletion handler decides on a creation under the same identifier whenever it is wanted |
| SelfHealing.ListingHeals | internal/controller/cronjob_controller.go:70-72 | a listing under the crontab the user still has leaves nothing out |
| SelfHealing.SettledAndQuietMeansConverged | internal/controller/cronjob_controller.go:65-145 | in every run, a settled user with nothing pending has exactly the identifiers of the crontab |
| Startup.RestartRemovesUnwanted | internal/controller/cronjob_controller.go:132-145 | after a restart, every run of handlers and successful calls that leaves nothing pending leaves only jobs that a crontab asks for, of any user |
| Convergence.InternalStepDecreases | internal/controller/cronjob_controller.go:116-145 | each handler step and each API call, failed or not, lowers the measure |
| Convergence.InternalRunsAreBounded | internal/controller/cronjob_controller.go:116-145 | a run of handlers and calls is no longer than the measure: no endless create and delete |
| Convergence.MaximalRunsConverge | internal/controller/cronjob_controller.go:65-145 | from any reachable state, a run that cannot go on is bounded and leaves settled users converged |
| Convergence.WorkCanBeDrained | internal/controller/cronjob_controller.go:65-145 | unless a crontab has a one-character command or such a creation is still pending, a run that ends with nothing pending and without a failure always exists |
| Convergence.RecreationCount | internal/controller/cronjob_controller.go:122-129 | the deletion handler decides on one creation per section that holds the identifier |
| Convergence.HandlingConserves | internal/controller/cronjob_controller.go:116-145 | handlers keep the number of jobs, existing and still to come, under every identifier |
| Convergence.CreatingConserves | internal/controller/cronjob_controller.go:201 | so do creations |
| Convergence.OtherDeletionConserves | internal/controller/cronjob_controller.go:89-97 | so does deleting a job of another identifier |
| Convergence.InternalRunsConserve | internal/controller/cronjob_controller.go:116-145 | while no deletion under an identifier is decided, no run of handlers and successful calls changes the number of its jobs, existing and still to come |
| Convergence.RemovalIsMadeUpPerHolder | internal/controller/cronjob_controller.go:116-131 | a job is deleted from a cluster at rest: in every run of handlers and successful calls that leaves nothing pending, the jobs under its identifier are one fewer than before plus one per section that holds it; their number is restored if and only if one section does |
| Calls.CallsOutcome | internal/controller/cronjob_controller.go:78-97 | after any batch of calls, old jobs are gone exactly when a call deleted them, and new jobs are exactly those a call created |
| Reconciliation.ReconcileIsFramed | internal/controller/cronjob_controller.go:78-97 | other users' jobs and wanted jobs are untouched and new jobs are wanted, even under failures |
| Reconciliation.ReconcileIsMonotone | internal/controller/cronjob_controller.go:65-99 | missing and extra identifiers only shrink under any failures |
| Reconciliation.MissingMeansAllCreatesFailed | internal/controller/cronjob_controller.go:83-86 | an identifier stays missing only if it was tried and every try failed |
| Reconciliation.ExtraMeansDeleteFailed | internal/controller/cronjob_controller.go:89-97 | an identifier stays extra only if a deletion of a job carrying it failed |
| Reconciliation.ReconcileConverges | internal/controller/cronjob_controller.go:65-99 | with every call succeeding the identifiers become exactly those of the crontab |
| Reconciliation.SecondReconcileWritesNothing | internal/controller/cronjob_controller.go:80-82 | a second reconciliation makes no write |
| Reconciliation.UnknownNameWritesNothing | internal/controller/cronjob_controller.go:111-115 | a reconciliation for a name without crontab and jobs, as an update event causes, writes nothing |
| Reconciliation.ReconcileSettles | internal/controller/cronjob_controller.go:65-99 | a reconciliation in which everything succeeds settles its user |
| Reconciliation.ReconcileAddsPerEntry | internal/controller/cronjob_controller.go:78-88 | the jobs added are, over the sections, the identifiers not present; after a failed listing, all of them |
| Reconciler.CronJobReconciler.CreateCronJob | internal/controller/cronjob_controller.go:150-210 | one creation is one step of the state machine with the server's next answer, or a panic without asking |
| Reconciler.CronJobReconciler.GetValidK8sCronjobsSchedulesForUser | internal/controller/cronjob_controller.go:212-232 | the listing splits the user's jobs into present identifiers and jobs to delete; a failed one looks empty |
| Reconciler.CronJobReconciler.CreateForEntries | internal/controller/cronjob_controller.go:78-88 | the nested loops make exactly the planned creations, entry by entry, and stop at the first entry with a one-character line to be created |
| Reconciler.CronJobReconciler.Reconcile | internal/controller/cronjob_controller.go:65-99 | a reconciliation is a run of the state machine with the server's answers in turn: all decided creations, entry by entry, then all decided deletions; it panics if and only if a line to be created has one character, and then before any deletion, sparing every job |
| Reconciler.OneCharacterPanics | internal/controller/cronjob_controller.go:154 | a crontab of one character panics a reconciliation exactly when its line has no job or the listing fails |
| Reconciler.CronJobReconciler.HandleDelete | internal/controller/cronjob_controller.go:116-131 | the deletion handler is a run making exactly its planned creations |
| Reconciler.CronJobReconciler.HandleCreate | internal/controller/cronjob_controller.go:132-145 | the creation handler is a run that deletes the job exactly when no section holds it |
| Matching.CollectChanges | internal/watcher/watcher.go:631-652 | created paths, and for every path in both snapshots exactly a write if the time differs and, independently, a chmod if the mode does |
| Matching.MatchOne | internal/watcher/watcher.go:655-680 | one removed path against all created ones, without an early exit, keeps the matching invariant |
| Matching.MatchMoves | internal/watcher/watcher.go:655-680 | in any order: every created path of a file that lost a path is moved to once, all from one source; renames exactly within a directory |
| Matching.PollOnce | internal/watcher/watcher.go:614-697 | one poll, to the end, is an emission and says of every path exactly what the snapshots say |
| PathEvents.EveryPathIsTold | internal/watcher/watcher.go:614-697 | path by path, the exact events in order: write and chmod of a path that stays, the one rename, move or creation of a new one, the removal of an old one unless its file moved away |
| PathEvents.WrittenAndChmoded | internal/watcher/watcher.go:638-651 | a concrete file written and chmod-ed between two polls is reported twice |
| Poll.EventAccounting | internal/watcher/watcher.go:619-696 | exact numbers of moves, creations and removals per file, with any number of hard links and in any order |
| Replay.ReplayGivesNewPaths | internal/watcher/watcher.go:614-697 | replaying an emission on the old paths gives exactly the new ones |
| Replay.ReplayGivesNewMetas | internal/watcher/watcher.go:658-676 | it gives the new metadata if and only if no moved file changed |
| Sources.EmissionFrom | internal/watcher/watcher.go:655-680 | whichever removed path of a file is chosen, some emission takes all of the file's moves from it |
| Sources.MetasAlwaysComeOutRight | internal/watcher/watcher.go:658-676 | read off any two snapshots: every emission gives the new metadata if and only if no file changed that lost one path and gained another |
| Sources.RenamedAndWritten | internal/watcher/watcher.go:658-676 | two concrete snapshots for which every emission, and there is one, records stale metadata |
| Replay.MetasComeOutRight | internal/watcher/watcher.go:658-676 | where the old paths of one file carry one metadata, as hard links do, the same condition decides each emission |
| Replay.RecordOverCycles | internal/watcher/watcher.go:614-697 | over any number of cycles, whatever was recorded of a path that stays is left alone until a cycle sees it altered, and is right from then on |
| Replay.StaleUntilAltered | internal/watcher/watcher.go:631-652 | a wrong record of a path that stays comes right if and only if some later cycle sees the path altered |
| Replay.CyclesTelescope | internal/watcher/watcher.go:555-611 | over any number of cycles the events carry the first paths into the last |
| FileTree.WalkListsExactly | internal/watcher/watcher.go:303-340 | a path is listed if and only if all hooks accept it, it is not blocked, and no directory above it is both accepted and blocked |
| FileTree.FlatShowsExactly | internal/watcher/watcher.go:226-277 | a flat listing shows the named file and exactly the entries that are not ignored, not hidden where hidden files are left out, and accepted by all hooks |
| FileTree.WalkIsNamed | internal/watcher/watcher.go:303-340 | where entries have non-empty names without a slash, every listed path carries the information of a file whose name is its last component |
| Watching.Watcher.List | internal/watcher/watcher.go:226-277 | the listing loop computes the flat listing |
| Watching.Watcher.Visit | internal/watcher/watcher.go:306-339 | the walk with its callback computes the recursive listing |
| Watching.Watcher.Add | internal/watcher/watcher.go:189-224 | passes over blocked names, reports missing ones, and keeps the class invariant |
| Watching.Watcher.AddRecursive | internal/watcher/watcher.go:280-301 | adds the recursive listing and keeps the class invariant |
| Watching.Watcher.Remove | internal/watcher/watcher.go:343-375 | removes the path and, for a directory, the files directly in it |
| Watching.RemoveTakesDirectEntries | internal/watcher/watcher.go:364-373 | of a directory's paths exactly its direct entries go; deeper ones stay as they are |
| Watching.Watcher.RemoveRecursive | internal/watcher/watcher.go:379-409 | removes every path with the name as a string prefix |
| Watching.Watcher.Ignore | internal/watcher/watcher.go:414-429 | afterwards nothing ignored is watched and no ignored name is watched by itself |
| Watching.TreesRemovedExactly | internal/watcher/watcher.go:414-429 | ignoring several paths takes away exactly the watched ones and, of directories, every path they prefix, in whatever order |
| Watching.TreeRemovalIsByPrefix | internal/watcher/watcher.go:403-407 | exactly the subtree is removed if and only if no watched path continues the name without a slash |
| Watching.TreeRemovalTakesSibling | internal/watcher/watcher.go:403-407 | a concrete sibling that is dropped |
| Watching.RetrievedIsNotIgnored | internal/watcher/watcher.go:485-533 | no snapshot has an ignored path |
| Watching.RetrievedShowsExactly | internal/watcher/watcher.go:485-533 | a path is in the snapshot if and only if some watched name shows it: recursively by the walk, otherwise itself and its direct entries |
| Watching.Watcher.RetrieveFileList | internal/watcher/watcher.go:485-533 | in any order of the names, the snapshot is the union of their listings |
| Watching.Watcher.Deliver | internal/watcher/watcher.go:576-602 | delivers exactly the first events, up to the cap, that pass the filter |
| Watching.Watcher.PollCycle | internal/watcher/watcher.go:555-611 | one cycle delivers the capped, filtered emission, moves the baseline on, and mentions no ignored path |
| Watching.Watcher.Start | internal/watcher/watcher.go:537-612 | cycle after cycle each snapshot is what its poll shows of the watched names, up to the first poll that misses one; consecutive emissions, exactly what is delivered of them, and unfiltered it replays to the last paths |
| Watching.DeliveredEventsTelescope | internal/watcher/watcher.go:555-611 | a listener to an unfiltered, uncapped watcher always ends with the last paths |
| Notifications.OneReconcilePerTouchedDirectory | internal/controller/cronjob_controller.go:234-262 | one cycle asks for exactly one reconciliation per directory in both snapshots whose time changed, by the name in its file information |
| Notifications.NothingAsked | internal/controller/cronjob_controller.go:246-252 | a cycle asks for nothing if and only if it touched no directory |
| Notifications.RewriteInPlaceIsMissed | internal/controller/cronjob_controller.go:246-252 | a concrete changed crontab that asks for no reconciliation |
| Notifications.ServeEvents | internal/controller/cronjob_controller.go:240-262 | serving events makes one complete reconciliation for each written directory, in order, each from the state the last one left; a panic ends it within the next one, for a one-character line |
| Notifications.WatchOnce | internal/controller/cronjob_controller.go:234-262 | one cycle polls and then makes exactly the reconciliations of the base names of the directories whose modification time changed |
| Wrapper.RequestODP | src/cronwrapper/cmd/eric-odp-cronwrapper/server.go:137-181 | the first decisive answer among the allowed attempts decides; exact number of attempts and every sleep |
| Wrapper.NeverReadyBounds | src/cronwrapper/cmd/eric-odp-cronwrapper/server.go:169-180 | closed form of the total sleep, and no sleep more than two seconds over the cap |
| Wrapper.UndelimitDelimit | src/cronwrapper/cmd/eric-odp-cronwrapper/server.go:105-108 | the reverse leftmost replacement gives every command back, runs of backslashes included |
| Wrapper.DelimitIsInjective | src/cronwrapper/cmd/eric-odp-cronwrapper/server.go:105-108 | distinct commands stay distinct |
| Wrapper.DelimitedLength | src/cronwrapper/cmd/eric-odp-cronwrapper/server.go:105-108 | each quote adds three characters |

## Left out

- Kubernetes client, caches, manager and API validation: the cluster is a map of labelled jobs and each call succeeds or fails; jobs without the operator's label, and edits of a job's annotations, are not modelled.
- Job names come from UUIDs and are assumed fresh; the model numbers them.
- A watch event may be handled in any order, but each is handled once: an informer that merges events is not modelled.
- Each event handler reads the crontab and decides in one step; its API calls are separate steps.
- A panic is an outcome of `CreateCronJob`; what follows it, the end of the process, is the restart step of the state machine.
- The order of the container's variable list: a job keeps the environment a process sees, where a later entry wins.
- File access: a crontab is the lines the scanner delivers, a directory tree is a finite value, and a crontab is read in one step.
- A failing `os.Stat` other than for a missing file, after which the scanner dereferences nil, and symbolic links.
- `Start` refusing a short interval or a second start: two guards.
- Watcher errors: the operator ends its process on any of them, so a cycle with a missing name ends the watch; the unreachable `ErrWatchedFileDeleted` path is not part of this model.
- Goroutines, channels, `Close` and the mutex of the watcher: a cycle is one step, and the cap takes the place of cancellation.
- Hooks that return an error other than the request to skip: no hook is installed by the operator.
- `filepath.Abs`: names are absolute, clean paths.
- What other parts do between the reconciliations of one cycle: `ServeEvents` makes them one after the other undisturbed; disturbed ones are runs of the state machine.
- The reconciliations of already watched files at start-up: one branch over `Reconcile`.
- 64-bit overflow of the retry sleep and of its conversion to nanoseconds: integers are unbounded.
- Logging, metrics, configuration, `logctl`, `configwatcher`, HTTP utilities, `internal/api/v1`, charts and CI: plumbing or easy members.
