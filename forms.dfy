/**
 * The routine form's validators: the structural check and normalisation of
 * the submitted step list, and the consistency of the schedule fields.
 */
module Forms {
  import opened Wrappers
  import opened Values
  import opened Text
  import opened Models
  import Scheduler

  /** A step entry the form refuses: not a dictionary, or one without `type`. */
  predicate Bad(step: Value) {
    !step.Dict? || "type" !in step.fields
  }

  /** The message for the offending entry at (0-based) position `i`. */
  function BadMessage(i: nat, step: Value): string {
    if !step.Dict? then "Step " + NatToString(i + 1) + " must be a dictionary"
    else "Step " + NatToString(i + 1) + " is missing 'type' field"
  }

  /** An accepted entry, with `config` defaulted to an empty dictionary. */
  function Normalise(step: Value): (r: Value)
    requires !Bad(step)
    ensures r.Dict? && "config" in r.fields && "type" in r.fields
    ensures "config" in step.fields ==> r == step
    ensures "config" !in step.fields ==> r.fields == step.fields["config" := Dict(map[])]
  {
    if "config" in step.fields then step
    else Dict(step.fields["config" := Dict(map[])])
  }

  /** A normalised entry is accepted again and normalises to itself. */
  lemma {:induction false} NormaliseIdempotent(step: Value)
    requires !Bad(step)
    ensures !Bad(Normalise(step)) && Normalise(Normalise(step)) == Normalise(step)
  {
  }

  const InvalidJson := "Invalid JSON format for steps"
  const NotAList := "Steps must be a list"

  /** `clean_steps_json()`. A submitted string is first decoded by
      `parseJson` (JSON decoding is not modelled). The first offending entry
      is reported; otherwise every entry has a `config`, in place, and the
      list keeps its length and order. */
  method CleanStepsJson(raw: Value, parseJson: string -> Option<Value>) returns (r: Result<seq<Value>, string>)
    ensures raw.Str? && parseJson(raw.s).None? ==> r == Err(InvalidJson)
    ensures var v := if raw.Str? && parseJson(raw.s).Some? then parseJson(raw.s).value else raw;
            !(raw.Str? && parseJson(raw.s).None?) ==>
              && (!v.List? ==> r == Err(NotAList))
              && (v.List? ==> (r.Ok? <==> forall k :: 0 <= k < |v.items| ==> !Bad(v.items[k])))
              && (v.List? && r.Err? ==>
                    exists i :: 0 <= i < |v.items| && Bad(v.items[i]) &&
                      (forall j :: 0 <= j < i ==> !Bad(v.items[j])) &&
                      r.error == BadMessage(i, v.items[i]))
              && (r.Ok? ==>
                    && v.List? && |r.value| == |v.items|
                    && forall k :: 0 <= k < |v.items| ==> !Bad(v.items[k]) && r.value[k] == Normalise(v.items[k]))
  {
    var v := raw;
    if raw.Str? {
      var parsed := parseJson(raw.s);
      if parsed.None? {
        return Err(InvalidJson);
      }
      v := parsed.value;
    }
    if !v.List? {
      return Err(NotAList);
    }
    var steps := v.items;
    var i := 0;
    while i < |steps|
      invariant 0 <= i <= |steps| == |v.items|
      invariant forall j :: 0 <= j < i ==> !Bad(v.items[j]) && steps[j] == Normalise(v.items[j])
      invariant forall j :: i <= j < |steps| ==> steps[j] == v.items[j]
    {
      var step := steps[i];
      if !step.Dict? {
        return Err("Step " + NatToString(i + 1) + " must be a dictionary");
      }
      if "type" !in step.fields {
        return Err("Step " + NatToString(i + 1) + " is missing 'type' field");
      }
      if "config" !in step.fields {
        steps := steps[i := Dict(step.fields["config" := Dict(map[])])];
      }
      i := i + 1;
    }
    return Ok(steps);
  }

  /** A cleaned step list is what the executor reads: every entry becomes a
      record with its `type` and a `config`. */
  lemma {:induction false} CleanedStepsFeedExecutor(items: seq<Value>)
    requires forall k :: 0 <= k < |items| ==> !Bad(items[k])
    ensures var cleaned := seq(|items|, k requires 0 <= k < |items| => Normalise(items[k]));
            var recs := Scheduler.StepRecords(List(cleaned));
            recs.Some? && |recs.value| == |items| &&
            forall k :: 0 <= k < |items| ==> "type" in recs.value[k] && "config" in recs.value[k]
  {
    var cleaned := seq(|items|, k requires 0 <= k < |items| => Normalise(items[k]));
    assert forall k :: 0 <= k < |cleaned| ==> cleaned[k].Dict?;
  }

  /** The schedule fields of the form's cleaned data. */
  datatype FormData = FormData(
    scheduleType: Option<string>,
    scheduledDatetime: Option<Instant>,
    timeOfDay: Option<TimeOfDay>,
    days: Week)

  /** A `ValidationError` keyed on a field, or one for the whole form. */
  datatype FormError = FieldError(field: string, message: string) | FormWide(message: string)

  const DatetimeRequired := "Scheduled date/time is required for one-time routines"
  const TimeRequired := "Time of day is required for recurring routines"
  const DayRequired := "At least one day of the week must be selected for recurring routines"

  /** `clean()`. */
  function Clean(d: FormData): (r: Result<FormData, FormError>)
    ensures r.Ok? ==> r.value == d
    ensures d.scheduleType == Some("once") ==>
              (r.Err? <==> d.scheduledDatetime.None?) &&
              (r.Err? ==> r.error == FieldError("scheduled_datetime", DatetimeRequired))
    ensures d.scheduleType == Some("recurring") ==>
              (d.timeOfDay.None? ==> r == Err(FieldError("time_of_day", TimeRequired))) &&
              (d.timeOfDay.Some? && true !in Flags(d.days) ==> r == Err(FormWide(DayRequired))) &&
              (r.Ok? <==> d.timeOfDay.Some? && true in Flags(d.days))
    ensures d.scheduleType !in {Some("once"), Some("recurring")} ==> r == Ok(d)
  {
    if d.scheduleType == Some("once") then
      if d.scheduledDatetime.None? then Err(FieldError("scheduled_datetime", DatetimeRequired))
      else Ok(d)
    else if d.scheduleType == Some("recurring") then
      if d.timeOfDay.None? then Err(FieldError("time_of_day", TimeRequired))
      else if true !in Flags(d.days) then Err(FormWide(DayRequired))
      else Ok(d)
    else Ok(d)
  }

  /** An enabled routine saved from a form that passed `clean()` with a known
      schedule type always gets a schedule entry. */
  lemma {:induction false} CleanFormIsSchedulable(d: FormData, r: RoutineRecord)
    requires Clean(d).Ok?
    requires r.enabled && r.scheduleType in {"once", "recurring"} && d.scheduleType == Some(r.scheduleType)
    requires r.scheduledDatetime == d.scheduledDatetime && r.timeOfDay == d.timeOfDay && r.days == d.days
    ensures Scheduler.EntryFor(r).Some?
  {
    if r.scheduleType == "recurring" {
      Scheduler.EntryForRecurring(r);
    } else {
      Scheduler.EntryForOnce(r);
    }
  }
}
