# Smart alarm: a Dafny model of the routine engine, scheduler and app rules

Smart alarm is a Django application that runs morning routines. A routine
is a named sequence of steps: play an alarm, read the news, give the weather
with outfit advice, open a URL, speak a quote. Routines run on a one-time or
a weekly schedule. Only one routine may run at a time. Each run is logged.

This project models the core of that application and proves properties of
the model:

- **`RoutineSteps`** (routine_steps.dfy): the five step variants.
  - Configuration validation and the registry of type tags, with the step
    factory.
  - The stop flag.
  - The text-to-speech template substitution.
  - The outfit advice and wind-speed parsing.
  - The calls each step's `execute` makes to the outside world. The outside
    world is a parameter.
- **`RoutineExecutor`** (routine.dfy): the executor.
  - A `Routine` class: building steps, validation, `start`, the execution
    loop with cooperative cancellation, `stop`, `to_dict`/`from_dict`.
  - An `Engine` class holding the global lock and the name of the running
    routine.
- **`Models`** (models.dfy): the stored records and their methods.
  - Scheduled days and "scheduled today"; `mark_as_run`.
  - Log status codes and duration; the quote's string form.
  - A `Database` class holding the tables.
- **`Scheduler`** (scheduler.dfy): the schedule table.
  - Schedule names and cron strings, with a parser for the round trip.
  - `schedule_routine`, `reload_all_schedules`, `remove_routine_schedule`.
  - `execute_routine`, which runs a stored routine and logs the run.
- **`Forms`** (forms.dfy): cleaning of the step list and of the schedule
  fields.
- **`ImportQuotes`** (import_quotes.dfy): the quote-file import command.
- **`Views`** and **`Admin`** (views.dfy, admin.dfy): the dashboard, the
  list filters, toggle/delete/save, and the admin columns.
- **Support modules**: `Wrappers` (Option/Result), `Text` (Python's `split`,
  `join`, `replace`, `strip`, `lower`, `str(n)` and `int(s)`) and `Values`
  (JSON-like values and Python truthiness).

## Modelling choices

- Parameters stand in for every outside effect:
  - the file system: `fileExists`, and file content as a `Result`;
  - the network and the subprocesses: an `External` answer per step;
  - the clock: `Instant` values, in integer seconds since 1970-01-01 UTC.
    The date is `t / 86400`, and the weekday is `(date + 3) % 7` with Monday = 0;
  - JSON decoding: `parseJson`;
  - a concurrent `stop()`: `cancel`, which names the step before whose check
    it lands;
  - an uncaught exception: `raiseAt` in the executor and `crash` in
    `execute_routine`.
- The lock is plain state of an `Engine` object, and the run is sequential.
  A non-blocking `start` takes the lock and leaves it held; the model stops
  there.
- Ghost fields `invoked` and `results` of `Routine` record which step
  indices ran and what each `execute()` returned. The execution loop's
  contract ties them to `RoutineSteps.Execute` and to `RunProgress`.

## Behaviour worth knowing

- A run cut short by `stop()` still makes `start` return `True`, so
  `execute_routine` logs it as `completed` and counts it (alarm_app/scheduler.py:96-104).
  No code writes the status `stopped`.
- When the lock is busy, `start` returns `False`. `execute_routine` then
  logs the run as `failed` and still calls `mark_as_run` (alarm_app/scheduler.py:96-104).
  No separate lock-failure record exists.
- "At least one step" is checked on the raw step list, so a list of
  unknown step types passes validation with no steps at all
  (alarm_app/routine.py:168-169). `OnlyUnknownTypesIsValid` states this.
- An uncaught exception inside a step is caught in `_execute`. The lock is
  released and `start` still returns `True` (alarm_app/routine.py:134-141).
- A step's configuration is `config or {}` (alarm_app/routine_steps.py:34): a
  truthy value that is not a dictionary is kept. Every variant but the quote
  step then raises in `validate_config`, so `execute_routine` logs the run as
  `failed` with the exception text and does not mark it as run
  (alarm_app/scheduler.py:107-113). The quote step validates; its `execute`
  fetches a quote and returns `False` at the first `self.config.get`.
- A step record whose "type" is a list or a dictionary makes the registry
  lookup raise (alarm_app/routine_steps.py:563), so the executor's
  constructor raises and the run is logged as `failed` the same way.
- An alarm whose `audio_file` is a non-empty list or dictionary makes
  `os.path.exists` raise `TypeError`, outside any `try`, in both
  `validate_config` and `execute` (alarm_app/routine_steps.py:99, 133).
- An alarm with a numeric duration calls its own `stop()` once the time is
  up and returns `True`, so its step is left stopped after the run
  (alarm_app/routine_steps.py:111-118). A truthy duration that is not a
  number makes the time comparison raise inside the `try`: the alarm returns
  `False` without stopping itself.

## Model

| member | source | states |
|---|---|---|
| RoutineSteps.Stop | alarm_app/routine_steps.py:48-50 | stopping sets the stop flag and keeps the variant and configuration |
| RoutineSteps.StopIdempotent | alarm_app/routine_steps.py:48-50 | stopping twice is stopping once |
| RoutineSteps.KeptConfig | alarm_app/routine_steps.py:34 | `config or {}`: a truthy configuration is kept as it is, whatever its type, and a falsy one becomes {} |
| RoutineSteps.CreateStep | alarm_app/routine_steps.py:541-567 | a list or dictionary tag raises, being unhashable; a registered string tag builds that variant with `config or {}` and the flag clear; every other tag gives None |
| RoutineSteps.RegisteredTags | alarm_app/routine_steps.py:541-547 | a string tag never raises, and the five tags "alarm", "news", "weather", "url_opener", "quote", and only they, build a step |
| RoutineSteps.RegistryCoversKinds | alarm_app/routine_steps.py:541-547 | every variant is reachable from some tag |
| RoutineSteps.ValidateConfig | alarm_app/routine_steps.py:129-135 | for a step whose check does not raise (a dictionary configuration whose alarm path is not a list or dictionary, or any quote step): per variant, the configuration is valid exactly when the required keys are truthy (and, for Alarm, the file exists); the Alarm message distinguishes a missing key from a missing file; QuoteFetcher is always valid |
| RoutineSteps.ValidateIgnoresStop | alarm_app/routine_steps.py:67-74 | the stop flag plays no part in validation |
| RoutineSteps.TtsCommand | alarm_app/routine_steps.py:234-239 | the command is the configured template, or the default one, with every "{text}" replaced by the text; a non-string template fails |
| RoutineSteps.TtsSubstitution | alarm_app/routine_steps.py:239 | the substitution is split-then-join, and no piece of the template keeps a placeholder |
| RoutineSteps.DefaultTtsQuotesText | alarm_app/routine_steps.py:236-239 | with the default template, the text ends up inside double quotes after `simple_google_tts en ` |
| RoutineSteps.QuoteMessage | alarm_app/routine_steps.py:495-499 | the message is "intro: text", with " - author" only when there is an author |
| RoutineSteps.QuoteMessageExtends | alarm_app/routine_steps.py:496-499 | the attributed message extends the unattributed one |
| RoutineSteps.TemperatureBand | alarm_app/routine_steps.py:375-382 | the four temperature bands are below 53, 53-59, 60-68 and 69 or above |
| RoutineSteps.ParseAssembled | alarm_app/routine_steps.py:371-390 | the band and both optional suffixes can be read back from an assembled recommendation |
| RoutineSteps.OutfitDecisions | alarm_app/routine_steps.py:371-390 | a recommendation holds one base phrase for the band, the wind-breaker suffix exactly when wind > 14, and the rain suffix exactly when the lower-cased forecast contains "rain" |
| RoutineSteps.NoRangeSeparator | alarm_app/routine_steps.py:363 | a number followed by " mph" contains no " to " |
| RoutineSteps.RemoveMph | alarm_app/routine_steps.py:368 | removing " mph" from a number followed by " mph" leaves the number |
| RoutineSteps.SplitRange | alarm_app/routine_steps.py:364 | "A to B mph" splits into "A" and "B mph" |
| RoutineSteps.WindSpeedRange | alarm_app/routine_steps.py:361-366 | "A to B mph" parses to B |
| RoutineSteps.WindSpeedSingle | alarm_app/routine_steps.py:367-369 | "A mph" parses to A |
| RoutineSteps.SpeakAfter | alarm_app/routine_steps.py:234-250 | speaking appends one Speak call with the substituted command; a failed substitution appends nothing and fails |
| RoutineSteps.Execute | alarm_app/routine_steps.py:95-127 | with a non-dictionary configuration the alarm and URL steps raise and the others return False, the quote step after fetching; an alarm whose path is a list or dictionary raises; otherwise a step whose guard fails returns False and calls nothing, and every variant but the URL opener makes at least one call; a raising step never reports success; a step stops itself exactly when it is an alarm that plays with a numeric duration (`StopsItself`), and then it reports success |
| RoutineSteps.GuardMatchesValidation | alarm_app/routine_steps.py:156-162 | for a dictionary configuration, `validate_config` and `execute` raise on the same steps, and otherwise the early `return False` guards of `execute` agree exactly with `validate_config` |
| RoutineSteps.TimedAlarmStopsItself | alarm_app/routine_steps.py:94-127 | an alarm that passes its guard plays its file without raising; it returns True exactly when the player starts and the duration is falsy or a number, and stops itself exactly when the player starts and the duration is a non-zero number |
| RoutineSteps.InvalidStepDoesNothing | alarm_app/routine_steps.py:308-316 | a step whose check does not raise but fails returns False and calls nothing |
| RoutineSteps.UnreadableQuoteConfig | alarm_app/routine_steps.py:491-537 | a quote step with a non-dictionary configuration passes validation without raising, yet its `execute` fetches a quote and returns False without speaking |
| RoutineSteps.QuoteSpoken | alarm_app/routine_steps.py:491-504 | with default settings, the quote step fetches a quote and speaks "Your quote of the day is: …" inside the default command |
| RoutineSteps.WeatherOutcome | alarm_app/routine_steps.py:336-355 | an unreadable wind speed fails after the fetch, without speaking; otherwise the last call speaks the outfit advice and the forecast |
| RoutineExecutor.BuildSpec | alarm_app/routine.py:52-65 | never more steps than records |
| RoutineExecutor.BuildSingle | alarm_app/routine.py:55-61 | a registered record gives its step with `config or {}` applied to its config, an unknown type gives none, and the record makes the build raise exactly when its type is a list or a dictionary |
| RoutineExecutor.BuildConcat | alarm_app/routine.py:55-61 | building is order-preserving: the steps of a + b are those of a followed by those of b |
| RoutineExecutor.BuildCount | alarm_app/routine.py:55-61 | the number of steps is the number of records with a registered type |
| RoutineExecutor.NoneRegistered | alarm_app/routine.py:59-65 | records of unknown types only give no steps |
| RoutineExecutor.AllStopped | alarm_app/routine.py:149-150 | every step is stopped, and the count is kept |
| RoutineExecutor.StepErrorsEmpty | alarm_app/routine.py:172-175 | when no step check raises, no step error exactly when every step validates |
| RoutineExecutor.ValidIff | alarm_app/routine.py:163-177 | when no step check raises, a routine is valid exactly when the name is non-empty, the raw step list is non-empty, and every built step validates |
| RoutineExecutor.ErrorOrder | alarm_app/routine.py:165-169 | the name error comes first, then the empty-list error |
| RoutineExecutor.OnlyUnknownTypesIsValid | alarm_app/routine.py:165-175 | a named routine whose records are all of unknown (hashable) types builds no steps and is valid |
| RoutineExecutor.MissingAudioReported | alarm_app/routine.py:172-175 | an alarm step whose file is missing is reported as "Step 1 (Alarm): Audio file not found: path" |
| RoutineExecutor.RunProgress | alarm_app/routine.py:111-135 | a run never returns from more steps than it invoked, nor invokes more than it has |
| RoutineExecutor.CancellationBoundary | alarm_app/routine.py:111-116 | a stop requested before step k's check means no step from k on is invoked |
| RoutineExecutor.StoppedBeforeStart | alarm_app/routine.py:111-116 | a stop flag already set invokes no step |
| RoutineExecutor.UndisturbedRunsAll | alarm_app/routine.py:111-129 | without stop or exception, every step is invoked once, in order, whatever it returns |
| RoutineExecutor.RaisePointFirst | alarm_app/routine.py:122-135 | the run is cut at the first step that raises, and no earlier step raises |
| RoutineExecutor.Engine.constructor | alarm_app/routine.py:14-24 | the lock starts free, with nothing running |
| RoutineExecutor.Engine.CurrentlyRunning | alarm_app/routine.py:200-203 | a name is reported exactly while the lock is held |
| RoutineExecutor.Routine.constructor | alarm_app/routine.py:26-50 | the fields are stored and the steps are built from the records |
| RoutineExecutor.Routine.FromDict | alarm_app/routine.py:187-192 | `to_dict(from_dict(d)) == d` |
| RoutineExecutor.Routine.ToDict | alarm_app/routine.py:179-181 | the dictionary holds the id, the name and the raw step records |
| RoutineExecutor.Routine.BuildSteps | alarm_app/routine.py:52-65 | the loop builds exactly the steps of the specification |
| RoutineExecutor.Routine.Validate | alarm_app/routine.py:156-177 | it raises exactly when some built step's check raises; otherwise the errors are the specified list in order, and valid means no errors |
| RoutineExecutor.CheckSteps | alarm_app/routine.py:171-175 | the step loop raises exactly when some step's check raises; otherwise it appends each failing step's numbered error, in order |
| RoutineExecutor.Routine.Start | alarm_app/routine.py:67-103 | starts exactly when the lock was free; the name, id and step records are always kept; if busy, nothing changes; non-blocking leaves the lock held with its name; blocking runs the steps per `RunProgress`, then frees the lock |
| RoutineExecutor.Routine.Execute | alarm_app/routine.py:105-141 | the steps invoked are 0..invoked-1, their results are those of `execute()`, a cancelled run leaves every step stopped and any other run leaves exactly its returned timed alarms stopped (`SelfStops`), the name, id and records are kept, and the lock is released and the stop flag cleared on every exit |
| RoutineExecutor.RunSteps | alarm_app/routine.py:111-135 | the loop invokes steps 0, 1, ... in order, each returning step's result is its `execute()`, it stops before the first step it reaches with the stop flag set and ends at the first step that raises, and reports whether a stop request ended it, as `RunProgress` describes, and the steps as the returned ones left them (`SelfStops`) |
| RoutineExecutor.SelfStopsAt | alarm_app/routine_steps.py:111-118 | after n steps returned, step j is stopped by itself exactly when j < n and its run stops it, and is otherwise unchanged |
| RoutineExecutor.SelfStopsAllStopped | alarm_app/routine.py:143-150 | stopping every step after the run gives the same steps whatever the alarms stopped themselves |
| RoutineExecutor.Routine.Stop | alarm_app/routine.py:143-150 | the stop flag is set and every step is stopped |
| RoutineExecutor.OneAtATime | alarm_app/routine.py:79-97 | for any two routines (whose construction does not raise) and any run of the first: while the first holds the lock the second cannot start; the engine names the first; once the first run has released the lock, a blocking start of the second succeeds |
| Models.Weekday | alarm_app/models.py:218 | the weekday is in 0..6 |
| Models.Flags | alarm_app/models.py:219-227 | seven flags, Monday first |
| Models.TrueIndices | alarm_app/models.py:202-204 | exactly the indices of the set flags, increasing |
| Models.TrueIndicesCount | alarm_app/models.py:202-204 | as many indices as set flags |
| Models.SelectSnoc | alarm_app/models.py:202-204 | one more flag appends its name exactly when set |
| Models.SelectIndexed | alarm_app/models.py:202-204 | the k-th selected name is the name of the k-th set flag |
| Models.GetScheduledDays | alarm_app/models.py:190-205 | the loop returns the names of the set days, in week order |
| Models.DayNamesDistinct | alarm_app/models.py:193-201 | the seven day names are distinct |
| Models.SelectMember | alarm_app/models.py:202-204 | with distinct names, a name is selected exactly when its flag is set |
| Models.SelectExact | alarm_app/models.py:202-205 | the same, with the count of selected names equal to the count of set flags |
| Models.ScheduledDaysExact | alarm_app/models.py:190-205 | a day is listed exactly when its flag is set, and the list is as long as the number of set flags |
| Models.IsScheduledToday | alarm_app/models.py:207-228 | false when disabled; a one-time routine is due on the date of its datetime; any other type is due when today's flag is set |
| Models.TodayAmongScheduledDays | alarm_app/models.py:207-228 | a recurring routine is due today exactly when today's name is among its scheduled days |
| Models.MarkedAsRun | alarm_app/models.py:230-234 | last_run becomes now and run_count grows by one; nothing else changes |
| Models.Database.MarkAsRun | alarm_app/models.py:230-234 | only that routine's row changes, to its marked state, and rows stay under their own keys |
| Models.ToRoutineConfig | alarm_app/models.py:236-238 | the config carries the name and the stored steps |
| Models.ParseStatus | alarm_app/models.py:273-281 | a parsed code prints back to itself; a code outside the four choices is rejected |
| Models.StatusRoundTrip | alarm_app/models.py:273-281 | every status prints to one of the four choices and parses back |
| Models.DurationSeconds | alarm_app/models.py:296-300 | a duration exists exactly when the log is completed, and start + duration = completion |
| Models.Take | alarm_app/models.py:125 | `s[:n]`: the prefix of length min(len, n) |
| Models.QuoteStrShape | alarm_app/models.py:123-126 | the string is a double quote, the first 50 characters, `..."`, then " - author" only with an author; its length follows |
| Scheduler.NameIsPrefixed | alarm_app/scheduler.py:129 | every schedule name starts with "routine_" |
| Scheduler.NameInjective | alarm_app/scheduler.py:129 | different routines get different schedule names |
| Scheduler.CronDigitsDistinct | alarm_app/scheduler.py:161-175 | the seven cron day digits are distinct |
| Scheduler.DayCodesExact | alarm_app/scheduler.py:161-175 | a day's cron digit is present exactly when its flag is set (Sunday is "0") |
| Scheduler.DayCodesMembers | alarm_app/scheduler.py:161-175 | the codes are exactly the digits of the set days |
| Scheduler.DayCodesNonEmpty | alarm_app/scheduler.py:177-179 | the day list is empty exactly when no day is set |
| Scheduler.DayCodesFree | alarm_app/scheduler.py:182 | no day code holds a space or a comma |
| Scheduler.CronDays | alarm_app/scheduler.py:161-175 | the appends build exactly the specified day codes |
| Scheduler.ParseCron | alarm_app/scheduler.py:182 | a parsed cron has five space-separated fields |
| Scheduler.DigitsCarryNoSeparator | alarm_app/scheduler.py:182 | a printed number holds no space or comma |
| Scheduler.CronRoundTrip | alarm_app/scheduler.py:182 | "minute hour * * d1,d2,…" parses back to its minute, hour and day list |
| Scheduler.EntryForOnce | alarm_app/scheduler.py:134-152 | no entry for a disabled routine or an unknown type; a one-time routine gets a once-entry for its datetime exactly when it has one |
| Scheduler.EntryForRecurring | alarm_app/scheduler.py:154-192 | a recurring routine gets an entry exactly when it has a time and a day, and its cron parses back to its minute, hour and days |
| Scheduler.ScheduledTodayMatchesCron | alarm_app/scheduler.py:161-175 | a recurring routine is due today exactly when today's cron digit is in its day list |
| Scheduler.Scheduled | alarm_app/scheduler.py:122-192 | after `schedule_routine`, the routine's name is present exactly when it has an entry, with that entry; every other name is untouched |
| Scheduler.ScheduleTable.ScheduleRoutine | alarm_app/scheduler.py:122-192 | the table becomes the scheduled table |
| Scheduler.Unprefixed | alarm_app/scheduler.py:208 | the entries kept by the prefix delete are exactly those not starting with "routine_" |
| Scheduler.ScheduleAllKeepsOthers | alarm_app/scheduler.py:210-215 | scheduling routines never touches an entry outside the "routine_" names |
| Scheduler.ReloadKeepsOthers | alarm_app/scheduler.py:195-217 | reload leaves every other job as it was |
| Scheduler.ReloadIdempotent | alarm_app/scheduler.py:195-217 | reloading twice equals reloading once |
| Scheduler.OwnEntriesStep | alarm_app/scheduler.py:211-213 | scheduling one more routine with a new id keeps every earlier routine's entry and adds its own |
| Scheduler.OnlyOwnedStep | alarm_app/scheduler.py:211-213 | scheduling one more routine adds no entry except its own |
| Scheduler.ScheduleAllEntries | alarm_app/scheduler.py:205-215 | over routines with distinct ids, each enabled routine has exactly its own entry, and every prefixed name belongs to an enabled routine |
| Scheduler.ReloadEntries | alarm_app/scheduler.py:195-217 | after reload, each enabled routine's name is present exactly when it has an entry, with that entry, and every prefixed name belongs to an enabled routine |
| Scheduler.ScheduleTable.Reload | alarm_app/scheduler.py:195-217 | the delete-then-loop builds exactly the reload specification |
| Scheduler.ScheduleTable.Remove | alarm_app/scheduler.py:220-224 | only the routine's own name is deleted |
| Scheduler.StepRecords | alarm_app/scheduler.py:75-82 | a list of dictionaries gives its records, in order; a list with a non-dictionary or a scalar makes the executor raise |
| Scheduler.FinalLogTerminal | alarm_app/scheduler.py:85-115 | the final log is completed or failed, carries both times, is completed exactly for a run whose `start` returned True, and an invalid routine's message is the errors joined by "; " |
| Scheduler.LockBusyIsFailedRun | alarm_app/scheduler.py:96-100 | a routine that reaches `start` runs successfully when the lock is free and is a failed run when it is held |
| Scheduler.ExecuteRoutine | alarm_app/scheduler.py:53-119 | a missing or disabled routine changes nothing; otherwise exactly one log is appended with its final fields: failed with the exception text when building or validating the executor raises, failed with the joined errors when validation fails, completed or failed by `start` otherwise; the routine is marked as run exactly when `start` was reached; quotes and the lock are unchanged |
| Scheduler.BuildAndRun | alarm_app/scheduler.py:73-97 | validation raises exactly when some built step's check raises; otherwise the errors are the validation errors of the steps built from the stored records, and with none the run starts exactly when the lock was free; the lock is as it was afterwards |
| Forms.Normalise | alarm_app/forms.py:119-120 | a cleaned step is a dictionary with "type" and "config"; an existing config is kept, a missing one becomes {} |
| Forms.NormaliseIdempotent | alarm_app/forms.py:119-120 | cleaning a cleaned step changes nothing |
| Forms.CleanStepsJson | alarm_app/forms.py:94-122 | bad JSON and a non-list are rejected with their messages; the first bad step i is reported as "Step i+1 …"; otherwise the list keeps its length and order, with each step normalised |
| Forms.CleanedStepsFeedExecutor | alarm_app/forms.py:112-122 | a cleaned list is a list of dictionaries each with a "config" |
| Forms.Clean | alarm_app/forms.py:124-163 | "once" needs a datetime; "recurring" needs a time first, then a day; any other type passes; a passing form is unchanged |
| Forms.CleanFormIsSchedulable | alarm_app/forms.py:124-163 | a form that passes gives an enabled once/recurring routine an entry in the schedule |
| ImportQuotes.ParseChunkShape | alarm_app/management/commands/import_quotes.py:59-74 | a piece is dropped exactly when it strips to nothing; an author comes only from a piece of several lines and never ends in . ! ?; without one, the text is the whole stripped piece |
| ImportQuotes.StripTrimmed | alarm_app/management/commands/import_quotes.py:59 | a string with no leading or trailing whitespace is its own strip |
| ImportQuotes.SingleLineHasNoAuthor | alarm_app/management/commands/import_quotes.py:66-69 | a one-line piece gets no author and keeps its whole text |
| ImportQuotes.SplitTwoLines | alarm_app/management/commands/import_quotes.py:66 | two newline-free lines joined by "\n" split back into them |
| ImportQuotes.TrimmedLines | alarm_app/management/commands/import_quotes.py:59 | two trimmed lines joined by a newline are trimmed |
| ImportQuotes.TextThenAuthor | alarm_app/management/commands/import_quotes.py:65-74 | a text line followed by an author line not ending in . ! ? reads back as that text and author |
| ImportQuotes.ParseAll | alarm_app/management/commands/import_quotes.py:58-59 | one parse per piece, in file order |
| ImportQuotes.ImportAllSnoc | alarm_app/management/commands/import_quotes.py:58-85 | one more piece is one more step of the loop |
| ImportQuotes.ParsedNonEmpty | alarm_app/management/commands/import_quotes.py:58-63 | exactly the pieces that do not strip to nothing parse to a quote |
| ImportQuotes.ImportInvariants | alarm_app/management/commands/import_quotes.py:55-85 | imported + skipped counts the parsed pieces; the table grows by the imported ones and keeps its old rows; new rows are active with the category; no duplicate text appears in a table that had none |
| ImportQuotes.ImportFile | alarm_app/management/commands/import_quotes.py:53-85 | on a file's pieces, imported + skipped is the number of non-empty pieces, old rows stay, and no duplicate text is added |
| ImportQuotes.RepeatIsSkipped | alarm_app/management/commands/import_quotes.py:77-79 | a piece whose text is already present, even from earlier in the file, only raises the skipped count |
| ImportQuotes.ExtractAuthor | alarm_app/management/commands/import_quotes.py:65-74 | the reassignments of text and author compute the specified parse |
| ImportQuotes.ImportPiece | alarm_app/management/commands/import_quotes.py:59-85 | one iteration of the loop is one specified step |
| ImportQuotes.ImportPieces | alarm_app/management/commands/import_quotes.py:55-85 | the loop over the pieces computes the specified import, in file order |
| ImportQuotes.Import | alarm_app/management/commands/import_quotes.py:30-85 | a missing file fails before anything is cleared; a read error fails after the clear; otherwise the result is the specified import over the file's pieces, starting from an empty table with --clear |
| Views.Greeting | alarm_app/views.py:20-26 | "morning" exactly before 12, "afternoon" exactly from 12 to 17, "evening" exactly from 18 |
| Views.GreetingMonotone | alarm_app/views.py:20-26 | a later hour never gets an earlier greeting |
| Views.EnabledOnly | alarm_app/views.py:34 | exactly the enabled routines |
| Views.DueToday | alarm_app/views.py:38 | exactly the routines scheduled today |
| Views.EnabledOnlyConcat | alarm_app/views.py:34 | the enabled filter keeps the order |
| Views.DueTodayConcat | alarm_app/views.py:38 | the due-today filter keeps the order |
| Views.Index | alarm_app/views.py:20-46 | the greeting for the hour; active ≤ total; "today" is exactly the enabled routines due today; the execution count is the number of logs |
| Views.RoutinesTodayInOrder | alarm_app/views.py:34-38 | the routines due today keep their list order |
| Views.FilterBy | alarm_app/views.py:76-84 | one filter keeps exactly the routines meeting it |
| Views.FilterByAllMeet | alarm_app/views.py:76-84 | a filter that everything meets changes nothing |
| Views.FilterAllMembers | alarm_app/views.py:74-86 | chained filters keep exactly the routines meeting them all |
| Views.FilterAllKeeps | alarm_app/views.py:74-86 | chained filters that everything meets change nothing |
| Views.ListQuery | alarm_app/views.py:71-86 | "enabled"/"disabled" filter by status and "once"/"recurring" by type; other values filter nothing, so no recognised parameter returns the list as is |
| Views.ListQueryIdempotent | alarm_app/views.py:71-86 | filtering a filtered list again changes nothing |
| Views.Toggled | alarm_app/views.py:185 | the flag flips and nothing else changes |
| Views.ToggleTwice | alarm_app/views.py:185 | two toggles restore the routine |
| Views.AfterToggleIsScheduled | alarm_app/views.py:188-192 | removing a disabled routine's entry is what scheduling it does, so after a toggle its entry is present exactly when it is enabled and has a schedule |
| Views.Toggle | alarm_app/views.py:179-199 | a non-POST request changes nothing; an unknown pk is a 404 and changes nothing; otherwise the flag flips once, the table is (un)scheduled, and the detail page is shown with the message |
| Views.LogsOtherThan | alarm_app/models.py:268 | the cascade keeps exactly the logs of other routines |
| Views.Delete | alarm_app/views.py:164-176 | over a database whose rows sit under their own keys: an unknown pk is a 404 and changes nothing; otherwise the schedule entry, the routine and, by the cascade, its logs are gone, the list page shows the message, and the rows still sit under their own keys |
| Views.DeleteLeavesNothing | alarm_app/views.py:164-176 | after a delete the routine has no entry, row or log |
| Views.Save | alarm_app/views.py:122-153 | the row is saved, then `schedule_routine` runs on it, with the created/updated message; rows stay under their own keys |
| Admin.PreviewIdempotent | alarm_app/admin.py:58-59 | shortening a preview again changes nothing |
| Admin.TextPreview | alarm_app/admin.py:58-59 | at most 103 characters; the text when it fits in 100; otherwise its first 100 characters then "..." |
| Admin.ErrorPreview | alarm_app/admin.py:138-145 | "-" for an empty message, otherwise the non-empty preview of the message |
| Admin.ErrorPreviewDash | alarm_app/admin.py:138-145 | the column shows "-" exactly when the message is empty or "-" |
| Admin.SecondsText | alarm_app/admin.py:133 | the formatted duration ends in ".0s" |
| Admin.DurationDisplay | alarm_app/admin.py:130-134 | "-" exactly when there is no duration or it is zero; otherwise the formatted seconds |
| Admin.HasAddPermission | alarm_app/admin.py:149-151 | logs can never be added by hand |
| Text.Split | alarm_app/management/commands/import_quotes.py:53 | `str.split` with a non-empty separator always gives at least one piece |
| Text.SplitPiecesAreFree | alarm_app/management/commands/import_quotes.py:53 | no piece of a split contains the separator |
| Text.JoinSplit | alarm_app/management/commands/import_quotes.py:53 | joining the pieces of a split with the separator gives the string back |
| Text.SplitJoin | alarm_app/scheduler.py:182 | pieces free of a one-character separator, joined by it, split back into the same pieces |
| Text.ReplaceAllIsSplitJoin | alarm_app/routine_steps.py:239 | `str.replace` equals splitting on the pattern and joining with the replacement |
| Text.ReplaceAbsent | alarm_app/routine_steps.py:239 | replacing a pattern that does not occur changes nothing |
| Text.TrimLeft | alarm_app/management/commands/import_quotes.py:59 | the result is a suffix, everything dropped is whitespace, and it does not start with whitespace |
| Text.TrimRight | alarm_app/management/commands/import_quotes.py:59 | the result is a prefix, everything dropped is whitespace, and it does not end with whitespace |
| Text.Strip | alarm_app/management/commands/import_quotes.py:59 | `str.strip` is empty or starts and ends with a non-whitespace character, and is no longer than its input |
| Text.StripIsMiddle | alarm_app/management/commands/import_quotes.py:59 | the stripped string is the middle slice of the input, with only whitespace on either side |
| Text.Lower | alarm_app/routine_steps.py:387 | `str.lower` keeps the length and lowers each character |
| Text.NatToString | alarm_app/scheduler.py:182 | the decimal form of a number consists of digits only |
| Text.DigitsRoundTrip | alarm_app/routine_steps.py:366-369 | the digits of a number read back as that number |
| Text.ParseInt | alarm_app/routine_steps.py:366-369 | `int(s)`: it succeeds exactly when the stripped text is digits, or a sign followed by digits, and its value is then those digits read in base ten, negated after "-" |
| Text.ParseIntOfNatString | alarm_app/routine_steps.py:366-369 | `int(str(n)) == n` |
| Values.Get | alarm_app/routine_steps.py:96-97 | a dictionary lookup finds a value exactly when the key is present, and it is that key's value |
| Values.GetOr | alarm_app/routine_steps.py:236 | `dict.get(key, default)` is the stored value when the key is present and the default otherwise |
| Values.IntToString | alarm_app/scheduler.py:182 | `str(i)` is the digits of i, with a leading "-" for a negative number |

## Left out

- Subprocesses are not modelled: `Popen`, `wait`, `terminate`/`kill` with the 5-second grace (alarm_app/routine_steps.py:51-56), the `play` player and the TTS commands. Each is one abstract call in the step's action list, and `stop` only sets the flag.
- Wall-clock behaviour is not modelled: the Alarm duration polling loop (alarm_app/routine_steps.py:112-116) is reduced to its outcome (a numeric duration ends in `stop()` and `True`, a non-numeric truthy one in `False`), the 0.5 s pacing sleep, the timing prints and all log/print messages.
- Network and library calls are answered by the `External` parameter: `feedparser`, the weather HTTP requests, the image downloader, `webbrowser`. The regex cleaning of the news summary is not modelled; the feed entry arrives already cleaned.
- Threads are not modelled: the background thread of a non-blocking `start`, `join(timeout=10)` in `stop`, and any true concurrency. A concurrent `stop()` is the `cancel` parameter.
- JSON text is not modelled: `to_json`/`from_json` and `json.loads` in the form are the `parseJson` parameter.
- The Django ORM and Django-Q are not modelled: query ordering (`-created_at`, `-started_at`), pagination, the ten recent logs, Django-Q's firing of entries and the removal of a one-time entry after it fires, `get_random_quote`, `UserProfile`, and the counts on the settings page.
- Time zones are not modelled: all instants are UTC seconds.
- Floats are not modelled: durations are whole seconds and temperatures integers, and numeric values in step configurations (a float latitude or alarm duration, say) have no `Value` case. `Admin.SecondsText`: prints whole seconds followed by ".0s", because sub-second durations are not modelled.
- Presentation is not modelled: `format_html`, `__repr__`, `RoutineLog.__str__` with `strftime`, the admin list layouts, and Python's display of container values.
- `Text.Strip` and `Text.Lower` handle ASCII whitespace (space, U+0009 to U+000D and U+001C to U+001F) and ASCII letters only; Unicode whitespace such as U+0085 or U+00A0 and non-ASCII letters are not modelled.
- `Text.ParseInt`: does not accept the underscores Python's `int()` allows between digits ("1_0") nor non-ASCII decimal digits; both give `None` here.
- Exceptions are not modelled as such. The exceptions the model derives are an unhashable step type (`RoutineExecutor.BuildRaises`), a `.get` on a non-dictionary configuration and `os.path.exists` on a list or dictionary path (`RoutineSteps.AudioPathRaises`, `RoutineSteps.ValidateRaises`, `RoutineSteps.ExecuteRaises`) and a step list that is not a list of dictionaries (`Scheduler.StepRecords`). Any other exception in a step is the `raiseAt` parameter. The text of the exception that `execute_routine` stores is the `crash` parameter.
- `Scheduler.ExecuteRoutine`: an exception raised while the schedule row is saved, or from an invalid stored value other than a bad step list, is not modelled.
- From Django 4.0 on, `DeleteView` handles a POST through `form_valid` and no longer calls an overridden `delete()`, so `RoutineDeleteView.delete` (alarm_app/views.py:164-176) may be skipped there, leaving the schedule entry in place. Django is not part of this model; `Views.Delete` models the method as written.
- `Models.DayNames`, the Routine's `__str__` and the Quote's `created_at` carry no logic and have no members of their own.
