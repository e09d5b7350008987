/**
 * The persisted records and their rules: weekday flags and the day names they
 * decode to, "scheduled today", recording a run, the routine-to-executor
 * conversion, execution-log statuses and durations, and how a quote displays.
 *
 * Timestamps are whole seconds (`Instant`) since 1970-01-01 00:00 UTC; the
 * calendar date is `t / 86400` and 1970-01-01 was a Thursday.
 */
module Models {
  import opened Wrappers
  import opened Values
  import opened Text

  type Instant = int

  /** `datetime.date()`, as a day number. */
  function DateOf(t: Instant): int {
    t / 86400
  }

  /** `datetime.weekday()`: 0 is Monday, 6 is Sunday. */
  function Weekday(t: Instant): (d: nat)
    ensures d < 7
  {
    (DateOf(t) + 3) % 7
  }

  datatype TimeOfDay = TimeOfDay(hour: nat, minute: nat)

  /** The seven weekday flags of a routine. */
  datatype Week = Week(monday: bool, tuesday: bool, wednesday: bool, thursday: bool,
                       friday: bool, saturday: bool, sunday: bool)

  /** The flags in Monday..Sunday order. */
  function Flags(w: Week): (f: seq<bool>)
    ensures |f| == 7
  {
    [w.monday, w.tuesday, w.wednesday, w.thursday, w.friday, w.saturday, w.sunday]
  }

  const DayNames: seq<string> := ["Monday", "Tuesday", "Wednesday", "Thursday", "Friday", "Saturday", "Sunday"]

  /** The positions of the true flags, in increasing order. */
  function TrueIndices(flags: seq<bool>): (r: seq<nat>)
    ensures forall k :: 0 <= k < |r| ==> r[k] < |flags| && flags[r[k]]
    ensures forall j :: 0 <= j < |flags| && flags[j] ==> j in r
    ensures forall k, l :: 0 <= k < l < |r| ==> r[k] < r[l]
  {
    if flags == [] then []
    else
      var n := |flags| - 1;
      TrueIndices(flags[..n]) + (if flags[n] then [n] else [])
  }

  /** There are as many true positions as true flags. */
  lemma {:induction false} TrueIndicesCount(flags: seq<bool>)
    ensures |TrueIndices(flags)| == multiset(flags)[true]
  {
    if flags != [] {
      var n := |flags| - 1;
      TrueIndicesCount(flags[..n]);
      assert flags == flags[..n] + [flags[n]];
      assert multiset(flags) == multiset(flags[..n]) + multiset{flags[n]};
    }
  }

  /** Routine fields (one row of the routine table). */
  datatype RoutineRecord = RoutineRecord(
    id: nat,
    name: string,
    description: string,
    stepsJson: Value,
    enabled: bool,
    scheduleType: string,
    scheduledDatetime: Option<Instant>,
    timeOfDay: Option<TimeOfDay>,
    days: Week,
    lastRun: Option<Instant>,
    runCount: int)

  /** The names whose flags are set, in the order of the flags. */
  function Select<T>(flags: seq<bool>, names: seq<T>): seq<T>
    requires |names| == |flags|
  {
    if flags == [] then []
    else
      var n := |flags| - 1;
      Select(flags[..n], names[..n]) + (if flags[n] then [names[n]] else [])
  }

  /** Selecting over one more flag appends that flag's name when it is set. */
  lemma {:induction false} SelectSnoc<T>(flags: seq<bool>, names: seq<T>, b: bool, x: T)
    requires |names| == |flags|
    ensures Select(flags + [b], names + [x]) == Select(flags, names) + (if b then [x] else [])
  {
    assert (flags + [b])[..|flags|] == flags;
    assert (names + [x])[..|names|] == names;
  }

  /** The selection holds, in order, the names at the true positions. */
  lemma {:induction false} SelectIndexed<T>(flags: seq<bool>, names: seq<T>)
    requires |names| == |flags|
    ensures |Select(flags, names)| == |TrueIndices(flags)|
    ensures forall k :: 0 <= k < |Select(flags, names)| ==> Select(flags, names)[k] == names[TrueIndices(flags)[k]]
  {
    if flags != [] {
      var n := |flags| - 1;
      SelectIndexed(flags[..n], names[..n]);
    }
  }

  /** `get_scheduled_days()`: the names of the selected days, Monday first. */
  method GetScheduledDays(r: RoutineRecord) returns (days: seq<string>)
    ensures days == Select(Flags(r.days), DayNames)
  {
    var mapping := Flags(r.days);
    days := [];
    var i := 0;
    while i < 7
      invariant 0 <= i <= 7
      invariant days == Select(mapping[..i], DayNames[..i])
    {
      assert mapping[..i + 1] == mapping[..i] + [mapping[i]];
      assert DayNames[..i + 1] == DayNames[..i] + [DayNames[i]];
      SelectSnoc(mapping[..i], DayNames[..i], mapping[i], DayNames[i]);
      if mapping[i] {
        days := days + [DayNames[i]];
      }
      i := i + 1;
    }
    assert mapping[..7] == mapping;
    assert DayNames[..7] == DayNames;
  }

  lemma {:induction false} DayNamesDistinct()
    ensures forall a, b :: 0 <= a < b < |DayNames| ==> DayNames[a] != DayNames[b]
  {
    forall a, b | 0 <= a < b < |DayNames| ensures DayNames[a] != DayNames[b] {
      assert DayNames[a][0] != DayNames[b][0] || |DayNames[a]| != |DayNames[b]|;
    }
  }

  /** With distinct names, a name is selected exactly when its flag is set. */
  lemma {:induction false} SelectMember<T>(flags: seq<bool>, names: seq<T>, j: nat)
    requires |names| == |flags| && j < |flags|
    requires forall a, b :: 0 <= a < b < |names| ==> names[a] != names[b]
    ensures names[j] in Select(flags, names) <==> flags[j]
  {
    var idx := TrueIndices(flags);
    var sel := Select(flags, names);
    SelectIndexed(flags, names);
    if flags[j] {
      var k :| 0 <= k < |idx| && idx[k] == j;
      assert sel[k] == names[j];
    }
  }

  /** With distinct names, a name is selected exactly when its flag is set, and
      there is one name per set flag. */
  lemma {:induction false} SelectExact<T>(flags: seq<bool>, names: seq<T>, j: nat)
    requires |names| == |flags| && j < |flags|
    requires forall a, b :: 0 <= a < b < |names| ==> names[a] != names[b]
    ensures names[j] in Select(flags, names) <==> flags[j]
    ensures |Select(flags, names)| == multiset(flags)[true]
  {
    TrueIndicesCount(flags);
    SelectIndexed(flags, names);
    SelectMember(flags, names, j);
  }

  /** The day list names a day exactly when its flag is set, and has one entry
      per set flag. */
  lemma {:induction false} ScheduledDaysExact(w: Week, d: nat)
    requires d < 7
    ensures DayNames[d] in Select(Flags(w), DayNames) <==> Flags(w)[d]
    ensures |Select(Flags(w), DayNames)| == multiset(Flags(w))[true]
  {
    DayNamesDistinct();
    SelectExact(Flags(w), DayNames, d);
  }

  /** `is_scheduled_today()` at the instant `now`. */
  function IsScheduledToday(r: RoutineRecord, now: Instant): (b: bool)
    ensures !r.enabled ==> !b
    ensures r.enabled && r.scheduleType == "once" ==>
              (b <==> r.scheduledDatetime.Some? && DateOf(r.scheduledDatetime.value) == DateOf(now))
    ensures r.enabled && r.scheduleType != "once" ==> (b <==> Flags(r.days)[Weekday(now)])
  {
    if !r.enabled then false
    else if r.scheduleType == "once" then
      r.scheduledDatetime.Some? && DateOf(r.scheduledDatetime.value) == DateOf(now)
    else Flags(r.days)[Weekday(now)]
  }

  /** A recurring routine is scheduled today exactly when today's name is
      among its scheduled days. */
  lemma {:induction false} TodayAmongScheduledDays(r: RoutineRecord, now: Instant)
    requires r.enabled && r.scheduleType != "once"
    ensures IsScheduledToday(r, now) <==> DayNames[Weekday(now)] in Select(Flags(r.days), DayNames)
  {
    ScheduledDaysExact(r.days, Weekday(now));
  }

  /** `mark_as_run()`: the run time becomes `now` and the counter goes up by one. */
  function MarkedAsRun(r: RoutineRecord, now: Instant): (r': RoutineRecord)
    ensures r'.lastRun == Some(now) && r'.runCount == r.runCount + 1
    ensures r'.(lastRun := r.lastRun, runCount := r.runCount) == r
  {
    r.(lastRun := Some(now), runCount := r.runCount + 1)
  }

  /** The input the executor takes: `{"name": ..., "steps": ...}`. */
  datatype RoutineConfig = RoutineConfig(name: string, steps: Value)

  /** `to_routine_config()`. */
  function ToRoutineConfig(r: RoutineRecord): (c: RoutineConfig)
    ensures c.name == r.name && c.steps == r.stepsJson
  {
    RoutineConfig(r.name, r.stepsJson)
  }

  /** The four log statuses. */
  datatype Status = Started | Completed | Failed | Stopped

  function StatusCode(s: Status): string {
    match s
    case Started => "started"
    case Completed => "completed"
    case Failed => "failed"
    case Stopped => "stopped"
  }

  /** The stored code back to its status; any other string is not a status. */
  function ParseStatus(code: string): (r: Option<Status>)
    ensures r.Some? ==> StatusCode(r.value) == code
    ensures code !in {"started", "completed", "failed", "stopped"} ==> r.None?
  {
    if code == "started" then Some(Started)
    else if code == "completed" then Some(Completed)
    else if code == "failed" then Some(Failed)
    else if code == "stopped" then Some(Stopped)
    else None
  }

  /** Every status is stored under its own code and read back as itself. */
  lemma {:induction false} StatusRoundTrip(s: Status)
    ensures ParseStatus(StatusCode(s)) == Some(s)
    ensures StatusCode(s) in {"started", "completed", "failed", "stopped"}
  {
  }

  /** One row of the execution log. */
  datatype LogRecord = LogRecord(
    routineId: nat,
    startedAt: Instant,
    completedAt: Option<Instant>,
    status: Status,
    errorMessage: string)

  /** `duration_seconds()`. */
  function DurationSeconds(l: LogRecord): (d: Option<int>)
    ensures d.Some? <==> l.completedAt.Some?
    ensures d.Some? ==> l.startedAt + d.value == l.completedAt.value
  {
    if l.completedAt.Some? then Some(l.completedAt.value - l.startedAt) else None
  }

  /** One row of the quote table. */
  datatype QuoteRecord = QuoteRecord(text: string, author: string, category: string, active: bool)

  /** `s[:n]`. */
  function Take(s: string, n: nat): (r: string)
    ensures |r| == if |s| <= n then |s| else n
    ensures r == s[..|r|]
  {
    if |s| <= n then s else s[..n]
  }

  /** `Quote.__str__()`. */
  function QuoteStr(q: QuoteRecord): string
  {
    "\"" + Take(q.text, 50) + "...\"" + (if q.author != "" then " - " + q.author else "")
  }

  /** The display opens with the text's first (at most) 50 characters inside a
      quotation mark, and ends with the author exactly when there is one. */
  lemma {:induction false} QuoteStrShape(q: QuoteRecord)
    ensures var k := if |q.text| <= 50 then |q.text| else 50;
            var r := QuoteStr(q);
            |r| == k + 5 + (if q.author != "" then 3 + |q.author| else 0) &&
            r[0] == '"' && r[1..k + 1] == q.text[..k] && r[k + 1..k + 5] == "...\"" &&
            (q.author != "" ==> r[k + 5..] == " - " + q.author)
  {
  }

  /** The stored tables, updated in place. */
  class Database {
    var routines: map<nat, RoutineRecord>
    var logs: seq<LogRecord>
    var quotes: seq<QuoteRecord>

    constructor (routines: map<nat, RoutineRecord>, logs: seq<LogRecord>, quotes: seq<QuoteRecord>)
      ensures this.routines == routines && this.logs == logs && this.quotes == quotes
    {
      this.routines := routines;
      this.logs := logs;
      this.quotes := quotes;
    }

    /** Every routine row is stored under its own primary key. */
    ghost predicate Valid()
      reads this
    {
      forall k :: k in routines ==> routines[k].id == k
    }

    /** `routine.mark_as_run()` followed by the save of those fields. */
    method MarkAsRun(id: nat, now: Instant)
      requires id in routines
      modifies this`routines
      ensures routines == old(routines)[id := MarkedAsRun(old(routines)[id], now)]
      ensures old(Valid()) ==> Valid()
    {
      routines := routines[id := MarkedAsRun(routines[id], now)];
    }
  }
}
