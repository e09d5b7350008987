/**
 * The logic inside the web views: the dashboard greeting and its list of
 * routines due today, the routine list's filters, and the toggle, delete and
 * save actions together with what they do to the schedule table. Routines
 * arrive as a sequence in the order the database returns them.
 */
module Views {
  import opened Wrappers
  import opened Models
  import opened Scheduler

  // ------------------------------------------------------------- dashboard

  /** The greeting of the dashboard for the current hour. */
  function Greeting(hour: nat): (g: string)
    ensures g == "morning" <==> hour < 12
    ensures g == "afternoon" <==> 12 <= hour < 18
    ensures g == "evening" <==> 18 <= hour
  {
    if hour < 12 then "morning"
    else if hour < 18 then "afternoon"
    else "evening"
  }

  /** The place of a greeting in the day. */
  function GreetingRank(g: string): nat {
    if g == "morning" then 0 else if g == "afternoon" then 1 else 2
  }

  /** Later hours never get an earlier greeting. */
  lemma {:induction false} GreetingMonotone(h1: nat, h2: nat)
    requires h1 <= h2
    ensures GreetingRank(Greeting(h1)) <= GreetingRank(Greeting(h2))
  {
  }

  /** `filter(enabled=True)`, keeping the order. */
  function EnabledOnly(rs: seq<RoutineRecord>): (r: seq<RoutineRecord>)
    ensures |r| <= |rs|
    ensures forall x :: x in r <==> x in rs && x.enabled
  {
    if rs == [] then []
    else
      var init := EnabledOnly(rs[..|rs| - 1]);
      assert forall x :: x in rs <==> x in rs[..|rs| - 1] || x == rs[|rs| - 1] by {
        assert rs == rs[..|rs| - 1] + [rs[|rs| - 1]];
      }
      if rs[|rs| - 1].enabled then init + [rs[|rs| - 1]] else init
  }

  /** `[r for r in rs if r.is_scheduled_today()]`. */
  function DueToday(rs: seq<RoutineRecord>, now: Instant): (r: seq<RoutineRecord>)
    ensures |r| <= |rs|
    ensures forall x :: x in r <==> x in rs && IsScheduledToday(x, now)
  {
    if rs == [] then []
    else
      var init := DueToday(rs[..|rs| - 1], now);
      assert forall x :: x in rs <==> x in rs[..|rs| - 1] || x == rs[|rs| - 1] by {
        assert rs == rs[..|rs| - 1] + [rs[|rs| - 1]];
      }
      if IsScheduledToday(rs[|rs| - 1], now) then init + [rs[|rs| - 1]] else init
  }

  lemma {:induction false} EnabledOnlyConcat(a: seq<RoutineRecord>, b: seq<RoutineRecord>)
    ensures EnabledOnly(a + b) == EnabledOnly(a) + EnabledOnly(b)
    decreases |b|
  {
    if b != [] {
      var b' := b[..|b| - 1];
      assert (a + b)[..|a + b| - 1] == a + b';
      EnabledOnlyConcat(a, b');
    } else {
      assert a + b == a;
    }
  }

  lemma {:induction false} DueTodayConcat(a: seq<RoutineRecord>, b: seq<RoutineRecord>, now: Instant)
    ensures DueToday(a + b, now) == DueToday(a, now) + DueToday(b, now)
    decreases |b|
  {
    if b != [] {
      var b' := b[..|b| - 1];
      assert (a + b)[..|a + b| - 1] == a + b';
      DueTodayConcat(a, b', now);
    } else {
      assert a + b == a;
    }
  }

  /** The figures the dashboard shows. */
  datatype Dashboard = Dashboard(
    greeting: string,
    totalRoutines: nat,
    activeRoutines: nat,
    routinesToday: seq<RoutineRecord>,
    totalExecutions: nat)

  /** `index`: the enabled routines, then those due today among them. */
  function Index(routines: seq<RoutineRecord>, logs: seq<LogRecord>, hour: nat, now: Instant): (d: Dashboard)
    ensures d.greeting == Greeting(hour)
    ensures d.activeRoutines <= d.totalRoutines == |routines|
    ensures |d.routinesToday| <= d.activeRoutines
    ensures forall x :: x in d.routinesToday <==> x in routines && x.enabled && IsScheduledToday(x, now)
    ensures d.totalExecutions == |logs|
  {
    var active := EnabledOnly(routines);
    Dashboard(Greeting(hour), |routines|, |active|, DueToday(active, now), |logs|)
  }

  /** The routines due today keep the order of the routine list: splitting the
      list anywhere splits the dashboard's list at the same place. */
  lemma {:induction false} RoutinesTodayInOrder(a: seq<RoutineRecord>, b: seq<RoutineRecord>, logs: seq<LogRecord>, hour: nat, now: Instant)
    ensures Index(a + b, logs, hour, now).routinesToday ==
            Index(a, logs, hour, now).routinesToday + Index(b, logs, hour, now).routinesToday
  {
    EnabledOnlyConcat(a, b);
    DueTodayConcat(EnabledOnly(a), EnabledOnly(b), now);
  }

  // ------------------------------------------------------------ list view

  /** One filter of the routine list. */
  datatype Criterion = IsEnabled(enabled: bool) | OfType(scheduleType: string)

  predicate Meets(r: RoutineRecord, c: Criterion) {
    match c
    case IsEnabled(b) => r.enabled == b
    case OfType(t) => r.scheduleType == t
  }

  /** `queryset.filter(...)` by one criterion, keeping the order. */
  function FilterBy(rs: seq<RoutineRecord>, c: Criterion): (r: seq<RoutineRecord>)
    ensures |r| <= |rs|
    ensures forall x :: x in r <==> x in rs && Meets(x, c)
  {
    if rs == [] then []
    else
      var init := FilterBy(rs[..|rs| - 1], c);
      assert forall x :: x in rs <==> x in rs[..|rs| - 1] || x == rs[|rs| - 1] by {
        assert rs == rs[..|rs| - 1] + [rs[|rs| - 1]];
      }
      if Meets(rs[|rs| - 1], c) then init + [rs[|rs| - 1]] else init
  }

  lemma {:induction false} LastSplit<T>(s: seq<T>)
    requires s != []
    ensures s == s[..|s| - 1] + [s[|s| - 1]]
  {
  }

  /** Filtering a list whose every element already meets the criterion
      leaves it as it is. */
  lemma {:induction false} FilterByAllMeet(rs: seq<RoutineRecord>, c: Criterion)
    requires forall k :: 0 <= k < |rs| ==> Meets(rs[k], c)
    ensures FilterBy(rs, c) == rs
  {
    if rs != [] {
      var init := rs[..|rs| - 1];
      assert forall k :: 0 <= k < |init| ==> init[k] == rs[k];
      FilterByAllMeet(init, c);
      LastSplit(rs);
    }
  }

  /** The filters the query string selects: `status` only when it is
      "enabled" or "disabled", then `schedule_type` only when it is "once"
      or "recurring". */
  function Criteria(status: Option<string>, scheduleType: Option<string>): seq<Criterion> {
    (if status == Some("enabled") then [IsEnabled(true)]
     else if status == Some("disabled") then [IsEnabled(false)]
     else [])
    +
    (if scheduleType == Some("once") || scheduleType == Some("recurring") then [OfType(scheduleType.value)]
     else [])
  }

  function FilterAll(rs: seq<RoutineRecord>, cs: seq<Criterion>): seq<RoutineRecord>
    decreases |cs|
  {
    if cs == [] then rs else FilterAll(FilterBy(rs, cs[0]), cs[1..])
  }

  lemma {:induction false} FilterAllMembers(rs: seq<RoutineRecord>, cs: seq<Criterion>)
    ensures forall x :: x in FilterAll(rs, cs) <==> x in rs && forall k :: 0 <= k < |cs| ==> Meets(x, cs[k])
    ensures |FilterAll(rs, cs)| <= |rs|
    decreases |cs|
  {
    if cs != [] {
      FilterAllMembers(FilterBy(rs, cs[0]), cs[1..]);
      forall x
        ensures (forall k :: 0 <= k < |cs| ==> Meets(x, cs[k])) <==>
                Meets(x, cs[0]) && forall k :: 0 <= k < |cs[1..]| ==> Meets(x, cs[1..][k])
      {
        if forall k :: 0 <= k < |cs[1..]| ==> Meets(x, cs[1..][k]) {
          forall k | 1 <= k < |cs| ensures Meets(x, cs[k]) {
            assert cs[k] == cs[1..][k - 1];
          }
        }
      }
    }
  }

  /** Whether a routine passes the list's filters. */
  predicate Listed(r: RoutineRecord, status: Option<string>, scheduleType: Option<string>) {
    && (status == Some("enabled") ==> r.enabled)
    && (status == Some("disabled") ==> !r.enabled)
    && (scheduleType == Some("once") || scheduleType == Some("recurring") ==> r.scheduleType == scheduleType.value)
  }

  /** `RoutineListView.get_queryset`: exactly the routines passing the
      filters, never more than there were, and all of them when neither
      parameter is one the view recognises. */
  function ListQuery(rs: seq<RoutineRecord>, status: Option<string>, scheduleType: Option<string>): (r: seq<RoutineRecord>)
    ensures |r| <= |rs|
    ensures forall x :: x in r <==> x in rs && Listed(x, status, scheduleType)
    ensures Criteria(status, scheduleType) == [] ==> r == rs
  {
    var cs := Criteria(status, scheduleType);
    FilterAllMembers(rs, cs);
    FilterAll(rs, cs)
  }

  /** Applying the same filters to a filtered list changes nothing. */
  lemma {:induction false} ListQueryIdempotent(rs: seq<RoutineRecord>, status: Option<string>, scheduleType: Option<string>)
    ensures ListQuery(ListQuery(rs, status, scheduleType), status, scheduleType) == ListQuery(rs, status, scheduleType)
  {
    var r := ListQuery(rs, status, scheduleType);
    var cs := Criteria(status, scheduleType);
    assert forall k :: 0 <= k < |r| ==> r[k] in r;
    forall k | 0 <= k < |cs| ensures forall j :: 0 <= j < |r| ==> Meets(r[j], cs[k]) {
    }
    FilterAllKeeps(r, cs);
  }

  /** A list whose every element meets every criterion passes them all unchanged. */
  lemma {:induction false} FilterAllKeeps(rs: seq<RoutineRecord>, cs: seq<Criterion>)
    requires forall k, j :: 0 <= k < |cs| && 0 <= j < |rs| ==> Meets(rs[j], cs[k])
    ensures FilterAll(rs, cs) == rs
    decreases |cs|
  {
    if cs != [] {
      FilterByAllMeet(rs, cs[0]);
      FilterAllKeeps(rs, cs[1..]);
    }
  }

  // --------------------------------------------------------------- actions

  /** Where a view sends the browser, and the message it flashes. */
  datatype Response =
    | ToList(flash: Option<string>)
    | ToDetail(pk: nat, message: string)
    | Missing

  /** The routine after `routine.enabled = not routine.enabled`. */
  function Toggled(r: RoutineRecord): (r': RoutineRecord)
    ensures r'.enabled == !r.enabled
    ensures r'.(enabled := r.enabled) == r
  {
    r.(enabled := !r.enabled)
  }

  lemma {:induction false} ToggleTwice(r: RoutineRecord)
    ensures Toggled(Toggled(r)) == r
  {
  }

  /** The table after the toggle view: scheduled when the routine is now
      enabled, its entry removed otherwise. */
  function AfterToggle(t: map<string, Entry>, r: RoutineRecord): map<string, Entry> {
    if r.enabled then Scheduled(t, r) else t - {ScheduleName(r.id)}
  }

  /** Removing the entry of a disabled routine is what scheduling it does, so
      after a toggle the table holds the routine's entry exactly when the
      routine is enabled and has a schedule, and no other entry moves. */
  lemma {:induction false} AfterToggleIsScheduled(t: map<string, Entry>, r: RoutineRecord)
    ensures AfterToggle(t, r) == Scheduled(t, r)
    ensures ScheduleName(r.id) in AfterToggle(t, r) <==> r.enabled && EntryFor(r).Some?
  {
    if !r.enabled {
      EntryForOnce(r);
    }
  }

  function ToggleMessage(r: RoutineRecord): string {
    "Routine '" + r.name + "' " + (if r.enabled then "enabled" else "disabled") + "."
  }

  /** `routine_toggle`. */
  method Toggle(db: Database, table: ScheduleTable, pk: nat, isPost: bool) returns (resp: Response)
    modifies db`routines, table`entries
    ensures !isPost ==> resp == ToList(None) && db.routines == old(db.routines) && table.entries == old(table.entries)
    ensures isPost && pk !in old(db.routines) ==>
              resp == Missing && db.routines == old(db.routines) && table.entries == old(table.entries)
    ensures isPost && pk in old(db.routines) ==>
              var r := Toggled(old(db.routines)[pk]);
              && db.routines == old(db.routines)[pk := r]
              && table.entries == AfterToggle(old(table.entries), r)
              && resp == ToDetail(pk, ToggleMessage(r))
  {
    if !isPost {
      return ToList(None);
    }
    if pk !in db.routines {
      return Missing;
    }
    var routine := db.routines[pk];
    routine := routine.(enabled := !routine.enabled);
    db.routines := db.routines[pk := routine];
    if routine.enabled {
      table.ScheduleRoutine(routine);
    } else {
      table.Remove(routine.id);
    }
    return ToDetail(pk, ToggleMessage(routine));
  }

  /** The logs left after the cascade of deleting routine `id`. */
  function LogsOtherThan(logs: seq<LogRecord>, id: nat): (r: seq<LogRecord>)
    ensures forall l :: l in r <==> l in logs && l.routineId != id
  {
    if logs == [] then []
    else
      var init := LogsOtherThan(logs[..|logs| - 1], id);
      assert forall l :: l in logs <==> l in logs[..|logs| - 1] || l == logs[|logs| - 1] by {
        assert logs == logs[..|logs| - 1] + [logs[|logs| - 1]];
      }
      if logs[|logs| - 1].routineId != id then init + [logs[|logs| - 1]] else init
  }

  /** `RoutineDeleteView.delete`: the schedule entry goes first, then the
      routine and, by the cascade, its logs. */
  method Delete(db: Database, table: ScheduleTable, pk: nat) returns (resp: Response)
    requires db.Valid()
    modifies db`routines, db`logs, table`entries
    ensures db.Valid()
    ensures pk !in old(db.routines) ==>
              resp == Missing && db.routines == old(db.routines) && db.logs == old(db.logs) &&
              table.entries == old(table.entries)
    ensures pk in old(db.routines) ==>
              var r := old(db.routines)[pk];
              && r.id == pk
              && table.entries == old(table.entries) - {ScheduleName(r.id)}
              && db.routines == old(db.routines) - {pk}
              && db.logs == LogsOtherThan(old(db.logs), pk)
              && resp == ToList(Some("Routine '" + r.name + "' deleted successfully."))
  {
    if pk !in db.routines {
      return Missing;
    }
    var routine := db.routines[pk];
    table.Remove(routine.id);
    db.routines := db.routines - {pk};
    db.logs := LogsOtherThan(db.logs, pk);
    return ToList(Some("Routine '" + routine.name + "' deleted successfully."));
  }

  /** After a delete the routine has no entry, no row and no logs left. */
  lemma {:induction false} DeleteLeavesNothing(t: map<string, Entry>, routines: map<nat, RoutineRecord>, logs: seq<LogRecord>, pk: nat)
    requires pk in routines && routines[pk].id == pk
    ensures ScheduleName(pk) !in t - {ScheduleName(routines[pk].id)}
    ensures pk !in routines - {pk}
    ensures forall k :: 0 <= k < |LogsOtherThan(logs, pk)| ==> LogsOtherThan(logs, pk)[k].routineId != pk
  {
    var r := LogsOtherThan(logs, pk);
    assert forall k :: 0 <= k < |r| ==> r[k] in r;
  }

  /** `RoutineCreateView.form_valid` and `RoutineUpdateView.form_valid`: the
      row is saved, then `schedule_routine` runs on it. */
  method Save(db: Database, table: ScheduleTable, r: RoutineRecord, created: bool) returns (message: string)
    modifies db`routines, table`entries
    ensures db.routines == old(db.routines)[r.id := r]
    ensures old(db.Valid()) ==> db.Valid()
    ensures table.entries == Scheduled(old(table.entries), r)
    ensures message == "Routine '" + r.name + "' " + (if created then "created" else "updated") + " successfully!"
  {
    db.routines := db.routines[r.id := r];
    table.ScheduleRoutine(r);
    message := "Routine '" + r.name + "' " + (if created then "created" else "updated") + " successfully!";
  }
}
