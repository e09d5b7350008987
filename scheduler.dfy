/**
 * The schedule table manager and the run recorder.
 *
 * The schedule table is a map from entry name to entry; each routine owns at
 * most one entry, named `routine_<id>`, which is either a one-time entry or a
 * cron entry whose day-of-week field lists the selected days (cron numbering:
 * Monday 1 .. Saturday 6, Sunday 0). Firing the entries is Django-Q's
 * business and is not modelled.
 */
module Scheduler {
  import opened Wrappers
  import opened Values
  import opened Text
  import opened Models
  import RoutineExecutor
  import RoutineSteps

  /** The function every entry runs. */
  const Task := "alarm_app.scheduler.execute_routine"
  const Prefix := "routine_"

  /** Schedule type 'O' (run once at `nextRun`) or 'C' (cron). */
  datatype Timing = Once(nextRun: Instant) | Cron(cron: string)

  datatype Entry = Entry(func: string, routineId: nat, timing: Timing)

  function ScheduleName(id: nat): string {
    Prefix + NatToString(id)
  }

  lemma {:induction false} NameIsPrefixed(id: nat)
    ensures StartsWith(ScheduleName(id), Prefix)
  {
    assert ScheduleName(id)[..|Prefix|] == Prefix;
  }

  /** Different routines own differently named entries. */
  lemma {:induction false} NameInjective(a: nat, b: nat)
    requires ScheduleName(a) == ScheduleName(b)
    ensures a == b
  {
    assert NatToString(a) == ScheduleName(a)[|Prefix|..];
    assert NatToString(b) == ScheduleName(b)[|Prefix|..];
    ParseIntOfNatString(a);
    ParseIntOfNatString(b);
  }

  /** Cron day-of-week codes in Monday..Sunday order. */
  const CronDigits: seq<string> := ["1", "2", "3", "4", "5", "6", "0"]

  /** The codes of the selected days, Monday first and Sunday last. */
  function DayCodes(w: Week): seq<string> {
    [] + (if w.monday then ["1"] else []) + (if w.tuesday then ["2"] else []) +
    (if w.wednesday then ["3"] else []) + (if w.thursday then ["4"] else []) +
    (if w.friday then ["5"] else []) + (if w.saturday then ["6"] else []) +
    (if w.sunday then ["0"] else [])
  }

  lemma {:induction false} CronDigitsDistinct()
    ensures forall a, b :: 0 <= a < b < |CronDigits| ==> CronDigits[a] != CronDigits[b]
  {
  }

  /** A day's code is listed exactly when the day is selected. */
  lemma {:induction false} DayCodesExact(w: Week, d: nat)
    requires d < 7
    ensures CronDigits[d] in DayCodes(w) <==> Flags(w)[d]
  {
    DayCodesMembers(w, CronDigits[d]);
    CronDigitsDistinct();
  }

  /** Membership in the day list, one weekday at a time. */
  lemma {:induction false} DayCodesMembers(w: Week, x: string)
    ensures x in DayCodes(w) <==>
      (w.monday && x == CronDigits[0]) || (w.tuesday && x == CronDigits[1]) ||
      (w.wednesday && x == CronDigits[2]) || (w.thursday && x == CronDigits[3]) ||
      (w.friday && x == CronDigits[4]) || (w.saturday && x == CronDigits[5]) ||
      (w.sunday && x == CronDigits[6])
  {
    var s0: seq<string> := [];
    var s1 := s0 + (if w.monday then ["1"] else []);
    InOptional(s0, w.monday, "1", x);
    var s2 := s1 + (if w.tuesday then ["2"] else []);
    InOptional(s1, w.tuesday, "2", x);
    var s3 := s2 + (if w.wednesday then ["3"] else []);
    InOptional(s2, w.wednesday, "3", x);
    var s4 := s3 + (if w.thursday then ["4"] else []);
    InOptional(s3, w.thursday, "4", x);
    var s5 := s4 + (if w.friday then ["5"] else []);
    InOptional(s4, w.friday, "5", x);
    var s6 := s5 + (if w.saturday then ["6"] else []);
    InOptional(s5, w.saturday, "6", x);
    var s7 := s6 + (if w.sunday then ["0"] else []);
    InOptional(s6, w.sunday, "0", x);
    assert s7 == DayCodes(w);
  }

  lemma {:induction false} InOptional(a: seq<string>, present: bool, c: string, x: string)
    ensures x in a + (if present then [c] else []) <==> x in a || (present && x == c)
  {
    if present {
      assert (a + [c])[|a|] == c;
    } else {
      assert a + [] == a;
    }
  }

  /** `f"{minute} {hour} * * {','.join(days)}"`. */
  function CronString(minute: nat, hour: nat, codes: seq<string>): string {
    NatToString(minute) + " " + NatToString(hour) + " * * " + Join(codes, ",")
  }

  /** The fields a cron string holds. */
  datatype CronFields = CronFields(minute: nat, hour: nat, days: seq<string>)

  /** Reads a cron string of the shape `CronString` writes. */
  function ParseCron(cron: string): (r: Option<CronFields>)
    ensures r.Some? ==> |Split(cron, " ")| == 5
  {
    var f := Split(cron, " ");
    if |f| == 5 && IsDigits(f[0]) && IsDigits(f[1]) && f[2] == "*" && f[3] == "*" then
      Some(CronFields(DigitsValue(f[0]), DigitsValue(f[1]), Split(f[4], ",")))
    else None
  }

  lemma {:induction false} DigitsCarryNoSeparator(n: nat)
    ensures ' ' !in NatToString(n) && ',' !in NatToString(n)
  {
  }

  /** A cron string gives back its minute, hour and day codes. */
  lemma {:induction false} CronRoundTrip(minute: nat, hour: nat, codes: seq<string>)
    requires |codes| >= 1
    requires forall k :: 0 <= k < |codes| ==> ' ' !in codes[k] && ',' !in codes[k]
    ensures ParseCron(CronString(minute, hour, codes)) == Some(CronFields(minute, hour, codes))
  {
    var m := NatToString(minute);
    var h := NatToString(hour);
    var days := Join(codes, ",");
    var parts := [m, h, "*", "*", days];
    DigitsCarryNoSeparator(minute);
    DigitsCarryNoSeparator(hour);
    JoinAvoids(codes, ',', ' ');
    assert Join(parts, " ") == CronString(minute, hour, codes) by {
      assert Join(parts[3..], " ") == "*" + " " + days;
      assert Join(parts[2..], " ") == "*" + " " + ("*" + " " + days);
      assert Join(parts[1..], " ") == h + " " + ("*" + " " + ("*" + " " + days));
    }
    SplitJoin(parts, ' ');
    SplitJoin(codes, ',');
    DigitsRoundTrip(minute);
    DigitsRoundTrip(hour);
  }

  /** The entry `schedule_routine` leaves for a routine, if any. */
  function EntryFor(r: RoutineRecord): Option<Entry> {
    if !r.enabled then None
    else if r.scheduleType == "once" then
      if r.scheduledDatetime.None? then None
      else Some(Entry(Task, r.id, Once(r.scheduledDatetime.value)))
    else if r.scheduleType == "recurring" then
      if r.timeOfDay.None? then None
      else
        var codes := DayCodes(r.days);
        if codes == [] then None
        else Some(Entry(Task, r.id, Cron(CronString(r.timeOfDay.value.minute, r.timeOfDay.value.hour, codes))))
    else None
  }

  /** A disabled routine, or one of an unknown schedule type, gets no entry; a
      one-time routine gets a one-time entry for its datetime exactly when it
      has one. */
  lemma {:induction false} EntryForOnce(r: RoutineRecord)
    ensures !r.enabled || r.scheduleType !in {"once", "recurring"} ==> EntryFor(r).None?
    ensures r.enabled && r.scheduleType == "once" ==>
              (EntryFor(r).Some? <==> r.scheduledDatetime.Some?) &&
              (EntryFor(r).Some? ==> EntryFor(r).value == Entry(Task, r.id, Once(r.scheduledDatetime.value)))
  {
  }

  /** A recurring routine gets a cron entry exactly when it has a time of day
      and at least one selected day, and the entry's cron string reads back as
      that minute, that hour and the selected days' codes. */
  lemma {:induction false} EntryForRecurring(r: RoutineRecord)
    requires r.enabled && r.scheduleType == "recurring"
    ensures EntryFor(r).Some? <==> r.timeOfDay.Some? && true in Flags(r.days)
    ensures EntryFor(r).Some? ==>
              EntryFor(r).value.func == Task && EntryFor(r).value.routineId == r.id &&
              EntryFor(r).value.timing.Cron? &&
              ParseCron(EntryFor(r).value.timing.cron) ==
                Some(CronFields(r.timeOfDay.value.minute, r.timeOfDay.value.hour, DayCodes(r.days)))
  {
    var codes := DayCodes(r.days);
    DayCodesNonEmpty(r.days);
    if r.timeOfDay.Some? && codes != [] {
      DayCodesFree(r.days);
      CronRoundTrip(r.timeOfDay.value.minute, r.timeOfDay.value.hour, codes);
    }
  }

  lemma {:induction false} DayCodesNonEmpty(w: Week)
    ensures DayCodes(w) != [] <==> true in Flags(w)
  {

  }

  lemma {:induction false} DayCodesFree(w: Week)
    ensures forall k :: 0 <= k < |DayCodes(w)| ==> ' ' !in DayCodes(w)[k] && ',' !in DayCodes(w)[k]
  {
    forall k | 0 <= k < |DayCodes(w)|
      ensures ' ' !in DayCodes(w)[k] && ',' !in DayCodes(w)[k]
    {
      DayCodesMembers(w, DayCodes(w)[k]);
    }
  }

  /** For a recurring routine with a time, "scheduled today" agrees with the
      cron entry: there is one and its day field holds today's code. */
  lemma {:induction false} ScheduledTodayMatchesCron(r: RoutineRecord, now: Instant)
    requires r.enabled && r.scheduleType == "recurring" && r.timeOfDay.Some?
    ensures IsScheduledToday(r, now) <==>
              EntryFor(r).Some? && EntryFor(r).value.timing.Cron? &&
              var f := ParseCron(EntryFor(r).value.timing.cron);
              f.Some? && CronDigits[Weekday(now)] in f.value.days
  {
    EntryForRecurring(r);
    DayCodesExact(r.days, Weekday(now));
  }

  /** The day list `schedule_routine` builds, one test per weekday. */
  method CronDays(w: Week) returns (days: seq<string>)
    ensures days == DayCodes(w)
  {
    days := [];
    days := days + (if w.monday then ["1"] else []);
    days := days + (if w.tuesday then ["2"] else []);
    days := days + (if w.wednesday then ["3"] else []);
    days := days + (if w.thursday then ["4"] else []);
    days := days + (if w.friday then ["5"] else []);
    days := days + (if w.saturday then ["6"] else []);
    days := days + (if w.sunday then ["0"] else []);
  }

  /** The table after `schedule_routine(r)`: its own entry is deleted and
      written back when there is one; every other entry stays as it was. */
  function Scheduled(t: map<string, Entry>, r: RoutineRecord): (t': map<string, Entry>)
    ensures ScheduleName(r.id) in t' <==> EntryFor(r).Some?
    ensures ScheduleName(r.id) in t' ==> t'[ScheduleName(r.id)] == EntryFor(r).value
    ensures forall n :: n != ScheduleName(r.id) ==> (n in t' <==> n in t)
    ensures forall n :: n != ScheduleName(r.id) && n in t ==> t'[n] == t[n]
  {
    var name := ScheduleName(r.id);
    match EntryFor(r)
    case None => t - {name}
    case Some(e) => (t - {name})[name := e]
  }

  /** The entries whose names do not start with `routine_`. */
  function Unprefixed(t: map<string, Entry>): (u: map<string, Entry>)
    ensures forall n :: n in u <==> n in t && !StartsWith(n, Prefix)
    ensures forall n :: n in u ==> u[n] == t[n]
  {
    map n | n in t && !StartsWith(n, Prefix) :: t[n]
  }

  /** Scheduling each enabled routine in turn. */
  function ScheduleAll(t: map<string, Entry>, rs: seq<RoutineRecord>): map<string, Entry> {
    if rs == [] then t
    else
      var prev := ScheduleAll(t, rs[..|rs| - 1]);
      var last := rs[|rs| - 1];
      if last.enabled then Scheduled(prev, last) else prev
  }

  /** The table after `reload_all_schedules()`. */
  function ReloadSpec(t: map<string, Entry>, rs: seq<RoutineRecord>): map<string, Entry> {
    ScheduleAll(Unprefixed(t), rs)
  }

  /** Scheduling never touches an entry outside the `routine_` namespace. */
  lemma {:induction false} ScheduleAllKeepsOthers(t: map<string, Entry>, rs: seq<RoutineRecord>)
    ensures Unprefixed(ScheduleAll(t, rs)) == Unprefixed(t)
  {
    if rs != [] {
      var init := rs[..|rs| - 1];
      ScheduleAllKeepsOthers(t, init);
      NameIsPrefixed(rs[|rs| - 1].id);
    }
  }

  /** Reloading keeps every entry outside the `routine_` namespace as it was. */
  lemma {:induction false} ReloadKeepsOthers(t: map<string, Entry>, rs: seq<RoutineRecord>)
    ensures Unprefixed(ReloadSpec(t, rs)) == Unprefixed(t)
  {
    ScheduleAllKeepsOthers(Unprefixed(t), rs);
  }

  /** Reloading twice on unchanged routines gives the table a single reload gives. */
  lemma {:induction false} ReloadIdempotent(t: map<string, Entry>, rs: seq<RoutineRecord>)
    ensures ReloadSpec(ReloadSpec(t, rs), rs) == ReloadSpec(t, rs)
  {
    ReloadKeepsOthers(t, rs);
    assert Unprefixed(Unprefixed(t)) == Unprefixed(t);
  }

  predicate DistinctIds(rs: seq<RoutineRecord>) {
    forall i, j :: 0 <= i < j < |rs| ==> rs[i].id != rs[j].id
  }

  /** Each enabled routine of `rs` has in `t` exactly the entry `schedule_routine` makes. */
  ghost predicate OwnEntries(t: map<string, Entry>, rs: seq<RoutineRecord>) {
    forall i :: 0 <= i < |rs| && rs[i].enabled ==>
      (ScheduleName(rs[i].id) in t <==> EntryFor(rs[i]).Some?) &&
      (ScheduleName(rs[i].id) in t ==> t[ScheduleName(rs[i].id)] == EntryFor(rs[i]).value)
  }

  /** Every `routine_` entry of `t` belongs to an enabled routine of `rs`. */
  ghost predicate OnlyOwned(t: map<string, Entry>, rs: seq<RoutineRecord>) {
    forall n :: n in t && StartsWith(n, Prefix) ==>
      exists i :: 0 <= i < |rs| && rs[i].enabled && n == ScheduleName(rs[i].id)
  }

  /** One turn of the reload loop. */
  function ScheduleIfEnabled(t: map<string, Entry>, r: RoutineRecord): map<string, Entry> {
    if r.enabled then Scheduled(t, r) else t
  }

  lemma {:induction false} OwnEntriesStep(t: map<string, Entry>, init: seq<RoutineRecord>, last: RoutineRecord)
    requires OwnEntries(t, init)
    requires forall i :: 0 <= i < |init| ==> init[i].id != last.id
    ensures OwnEntries(ScheduleIfEnabled(t, last), init + [last])
  {
    var rs := init + [last];
    forall i | 0 <= i < |rs| && rs[i].enabled
      ensures (ScheduleName(rs[i].id) in ScheduleIfEnabled(t, last) <==> EntryFor(rs[i]).Some?) &&
              (ScheduleName(rs[i].id) in ScheduleIfEnabled(t, last) ==> ScheduleIfEnabled(t, last)[ScheduleName(rs[i].id)] == EntryFor(rs[i]).value)
    {
      if i < |init| {
        assert rs[i] == init[i];
        if ScheduleName(init[i].id) == ScheduleName(last.id) {
          NameInjective(init[i].id, last.id);
        }
      }
    }
  }

  lemma {:induction false} OnlyOwnedStep(t: map<string, Entry>, init: seq<RoutineRecord>, last: RoutineRecord)
    requires OnlyOwned(t, init)
    ensures OnlyOwned(ScheduleIfEnabled(t, last), init + [last])
  {
    var rs := init + [last];
    forall n | n in ScheduleIfEnabled(t, last) && StartsWith(n, Prefix)
      ensures exists i :: 0 <= i < |rs| && rs[i].enabled && n == ScheduleName(rs[i].id)
    {
      if last.enabled && n == ScheduleName(last.id) {
        assert rs[|init|] == last;
      } else {
        var i :| 0 <= i < |init| && init[i].enabled && n == ScheduleName(init[i].id);
        assert rs[i] == init[i];
      }
    }
  }

  /** Starting from a table without `routine_` entries, scheduling routines
      with distinct ids leaves exactly the entries `schedule_routine` makes for
      the enabled ones. */
  lemma {:induction false} ScheduleAllEntries(u: map<string, Entry>, rs: seq<RoutineRecord>)
    requires forall n :: n in u ==> !StartsWith(n, Prefix)
    requires DistinctIds(rs)
    ensures OwnEntries(ScheduleAll(u, rs), rs) && OnlyOwned(ScheduleAll(u, rs), rs)
  {
    if rs != [] {
      var k := |rs| - 1;
      var init := rs[..k];
      assert rs == init + [rs[k]];
      ScheduleAllEntries(u, init);
      assert ScheduleAll(u, rs) == ScheduleIfEnabled(ScheduleAll(u, init), rs[k]);
      OwnEntriesStep(ScheduleAll(u, init), init, rs[k]);
      OnlyOwnedStep(ScheduleAll(u, init), init, rs[k]);
    }
  }

  /** After a reload over routines with distinct ids, each enabled routine
      has exactly the entry `schedule_routine` gives it, and every
      `routine_` entry belongs to an enabled routine. */
  lemma {:induction false} ReloadEntries(t: map<string, Entry>, rs: seq<RoutineRecord>)
    requires DistinctIds(rs)
    ensures forall i :: 0 <= i < |rs| && rs[i].enabled ==>
              (ScheduleName(rs[i].id) in ReloadSpec(t, rs) <==> EntryFor(rs[i]).Some?)
    ensures forall i :: 0 <= i < |rs| && rs[i].enabled && EntryFor(rs[i]).Some? ==>
              ReloadSpec(t, rs)[ScheduleName(rs[i].id)] == EntryFor(rs[i]).value
    ensures forall n :: n in ReloadSpec(t, rs) && StartsWith(n, Prefix) ==>
              exists i :: 0 <= i < |rs| && rs[i].enabled && n == ScheduleName(rs[i].id)
  {
    ScheduleAllEntries(Unprefixed(t), rs);
    assert OwnEntries(ReloadSpec(t, rs), rs) && OnlyOwned(ReloadSpec(t, rs), rs);
  }

  /** The schedule table, changed in place. */
  class ScheduleTable {
    var entries: map<string, Entry>

    constructor (entries: map<string, Entry>)
      ensures this.entries == entries
    {
      this.entries := entries;
    }

    /** `schedule_routine(routine)`. */
    method ScheduleRoutine(r: RoutineRecord)
      modifies this`entries
      ensures entries == Scheduled(old(entries), r)
    {
      var name := ScheduleName(r.id);
      entries := entries - {name};
      if !r.enabled {
        return;
      }
      if r.scheduleType == "once" {
        if r.scheduledDatetime.None? {
          return;
        }
        entries := entries[name := Entry(Task, r.id, Once(r.scheduledDatetime.value))];
      } else if r.scheduleType == "recurring" {
        if r.timeOfDay.None? {
          return;
        }
        var days := CronDays(r.days);
        if days == [] {
          return;
        }
        var cron := CronString(r.timeOfDay.value.minute, r.timeOfDay.value.hour, days);
        entries := entries[name := Entry(Task, r.id, Cron(cron))];
      }
    }

    /** `reload_all_schedules()` over the stored routines, in their stored order. */
    method Reload(routines: seq<RoutineRecord>)
      modifies this`entries
      ensures entries == ReloadSpec(old(entries), routines)
    {
      entries := map n | n in entries && !StartsWith(n, Prefix) :: entries[n];
      var i := 0;
      while i < |routines|
        invariant 0 <= i <= |routines|
        invariant entries == ScheduleAll(Unprefixed(old(entries)), routines[..i])
      {
        assert routines[..i + 1][..i] == routines[..i];
        if routines[i].enabled {
          ScheduleRoutine(routines[i]);
        }
        i := i + 1;
      }
      assert routines[..i] == routines;
    }

    /** `remove_routine_schedule(routine_id)`. */
    method Remove(id: nat)
      modifies this`entries
      ensures entries == old(entries) - {ScheduleName(id)}
    {
      entries := entries - {ScheduleName(id)};
    }
  }

  // ------------------------------------------------------------ run recorder

  /** The step records the executor reads from a stored `steps_json`: a list
      of dictionaries; an empty dictionary or string iterates as no records.
      Anything else makes the executor's constructor raise (a non-dictionary
      item has no `get`, a scalar is not iterable), which is `None` here. A
      record list can still make the constructor raise through a record's tag
      (`RoutineExecutor.BuildRaises`). */
  function StepRecords(v: Value): (r: Option<seq<RoutineExecutor.StepRecord>>)
    ensures v.List? && (forall k :: 0 <= k < |v.items| ==> v.items[k].Dict?) ==>
              r.Some? && |r.value| == |v.items| &&
              forall k :: 0 <= k < |v.items| ==> r.value[k] == v.items[k].fields
    ensures v.List? && (exists k :: 0 <= k < |v.items| && !v.items[k].Dict?) ==> r.None?
    ensures (v.Null? || v.Bool? || v.Int?) ==> r.None?
  {
    match v
    case List(items) =>
      if forall k :: 0 <= k < |items| ==> items[k].Dict? then
        Some(seq(|items|, k requires 0 <= k < |items| => items[k].fields))
      else None
    case Dict(m) => if m == map[] then Some([]) else None
    case Str(s) => if s == "" then Some([]) else None
    case _ => None
  }

  /** How `execute_routine` ends for a routine. */
  datatype Outcome =
    | NotFound                        // no enabled routine with that id
    | Crashed                         // building or validating the executor raised
    | Invalid(errors: seq<string>)    // validation failed
    | Ran(started: bool)              // `start(blocking=True)` returned `started`

  function RunOutcome(routines: map<nat, RoutineRecord>, id: nat, lockHeld: bool,
                      fileExists: Value -> bool): Outcome
  {
    if id !in routines || !routines[id].enabled then NotFound
    else
      var r := routines[id];
      match StepRecords(r.stepsJson)
      case None => Crashed
      case Some(recs) =>
        if RoutineExecutor.BuildRaises(recs) then Crashed
        else
          var steps := RoutineExecutor.BuildSpec(recs);
          if !RoutineExecutor.NoneRaise(steps) then Crashed
          else
            var errors := RoutineExecutor.ValidationErrors(r.name, recs, steps, fileExists);
            if errors != [] then Invalid(errors) else Ran(!lockHeld)
  }

  /** The log row as it is finally saved; it was created as `started` at `t0`. */
  function FinalLog(id: nat, out: Outcome, t0: Instant, t1: Instant, crash: string): LogRecord
    requires !out.NotFound?
  {
    match out
    case Crashed => LogRecord(id, t0, Some(t1), Failed, crash)
    case Invalid(errors) => LogRecord(id, t0, Some(t1), Failed, Join(errors, "; "))
    case Ran(started) => LogRecord(id, t0, Some(t1), if started then Completed else Failed, "")
  }

  /** Every saved log is terminal: it carries a completion time and is
      `completed` exactly when the routine was started, `failed` otherwise. */
  lemma {:induction false} FinalLogTerminal(id: nat, out: Outcome, t0: Instant, t1: Instant, crash: string)
    requires !out.NotFound?
    ensures FinalLog(id, out, t0, t1, crash).status in {Completed, Failed}
    ensures FinalLog(id, out, t0, t1, crash).completedAt == Some(t1)
    ensures FinalLog(id, out, t0, t1, crash).startedAt == t0
    ensures FinalLog(id, out, t0, t1, crash).status == Completed <==> out == Ran(true)
    ensures out.Invalid? ==> FinalLog(id, out, t0, t1, crash).errorMessage == Join(out.errors, "; ")
  {
  }

  /** A valid routine runs exactly when the lock is free; a busy lock still
      counts as a run, with a `failed` log. */
  lemma {:induction false} LockBusyIsFailedRun(routines: map<nat, RoutineRecord>, id: nat, fileExists: Value -> bool)
    requires RunOutcome(routines, id, false, fileExists).Ran?
    ensures RunOutcome(routines, id, false, fileExists) == Ran(true)
    ensures RunOutcome(routines, id, true, fileExists) == Ran(false)
  {
  }

  /** The executor part of `execute_routine`: build the executor from the
      stored records, validate it, and, when it is valid, run it blocking.
      `raised` when validation raised; `started` is what `start` returned. */
  method BuildAndRun(name: string, records: seq<RoutineExecutor.StepRecord>, id: nat,
                     engine: RoutineExecutor.Engine, fileExists: Value -> bool,
                     world: nat -> RoutineSteps.External, cancel: Option<nat>, raiseAt: Option<nat>)
    returns (raised: bool, errors: seq<string>, started: bool)
    requires engine.Valid() && !RoutineExecutor.BuildRaises(records)
    modifies engine
    ensures raised <==> !RoutineExecutor.NoneRaise(RoutineExecutor.BuildSpec(records))
    ensures !raised ==> errors == RoutineExecutor.ValidationErrors(name, records, RoutineExecutor.BuildSpec(records), fileExists)
    ensures !raised && errors == [] ==> started == !old(engine.held)
    ensures engine.held == old(engine.held) && engine.currentlyRunning == old(engine.currentlyRunning)
  {
    var executor := new RoutineExecutor.Routine(name, records, Some(id));
    var valid;
    raised, valid, errors := executor.Validate(fileExists);
    started := false;
    if !raised && valid {
      started := executor.Start(engine, true, fileExists, world, cancel, raiseAt);
    }
  }

  /** Completing the row just appended is appending the completed row. */
  lemma {:induction false} CompleteLast(logs: seq<LogRecord>, pending: LogRecord, done: LogRecord)
    ensures (logs + [pending])[|logs| := done] == logs + [done]
  {
  }

  /** `execute_routine(routine_id)`: find the enabled routine, create a
      `started` log, build and validate the executor, run it blocking, and
      record the outcome; the run counter moves only when the routine ran.
      `t0`, `t1`, `t2` are the clock readings, `crash` the text of the
      exception building or validating the executor raises. */
  method ExecuteRoutine(db: Database, engine: RoutineExecutor.Engine, id: nat,
                        fileExists: Value -> bool, world: nat -> RoutineSteps.External,
                        cancel: Option<nat>, raiseAt: Option<nat>,
                        t0: Instant, t1: Instant, t2: Instant, crash: string)
    returns (ok: bool)
    requires engine.Valid()
    modifies db, engine
    ensures var out := RunOutcome(old(db.routines), id, old(engine.held), fileExists);
            && (ok <==> out.Ran?)
            && db.logs == old(db.logs) + (if out.NotFound? then [] else [FinalLog(id, out, t0, t1, crash)])
            && db.routines == (if out.Ran? then old(db.routines)[id := MarkedAsRun(old(db.routines)[id], t2)]
                               else old(db.routines))
    ensures db.quotes == old(db.quotes)
    ensures engine.held == old(engine.held) && engine.currentlyRunning == old(engine.currentlyRunning)
  {
    if id !in db.routines || !db.routines[id].enabled {
      return false;
    }
    ghost var out := RunOutcome(db.routines, id, engine.held, fileExists);
    var routine := db.routines[id];
    var before := db.logs;
    var pending := LogRecord(id, t0, None, Started, "");
    db.logs := db.logs + [pending];
    var li := |db.logs| - 1;
    var config := ToRoutineConfig(routine);
    var records := StepRecords(config.steps);
    if records.None? || RoutineExecutor.BuildRaises(records.value) {
      assert out == Crashed;
      CompleteLast(before, pending, FinalLog(id, out, t0, t1, crash));
      db.logs := db.logs[li := db.logs[li].(status := Failed, errorMessage := crash, completedAt := Some(t1))];
      return false;
    }
    var raised, errors, success := BuildAndRun(config.name, records.value, id, engine, fileExists, world, cancel, raiseAt);
    if raised {
      assert out == Crashed;
      CompleteLast(before, pending, FinalLog(id, out, t0, t1, crash));
      db.logs := db.logs[li := db.logs[li].(status := Failed, errorMessage := crash, completedAt := Some(t1))];
      return false;
    }
    if errors != [] {
      assert out == Invalid(errors);
      CompleteLast(before, pending, FinalLog(id, out, t0, t1, crash));
      db.logs := db.logs[li := db.logs[li].(status := Failed, errorMessage := Join(errors, "; "), completedAt := Some(t1))];
      return false;
    }
    assert out == Ran(success);
    CompleteLast(before, pending, FinalLog(id, out, t0, t1, crash));
    db.logs := db.logs[li := db.logs[li].(completedAt := Some(t1), status := if success then Completed else Failed)];
    db.MarkAsRun(id, t2);
    return true;
  }
}
