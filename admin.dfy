/**
 * The computed columns of the admin site: the shortened quote text and error
 * message, the run duration column, and the rule that logs cannot be added
 * by hand.
 */
module Admin {
  import opened Wrappers
  import opened Text
  import opened Models

  const PreviewLength := 100
  const Ellipsis := "..."

  /** `s[:100] + "..." if len(s) > 100 else s`. */
  function Preview(s: string): string {
    if |s| > PreviewLength then s[..PreviewLength] + Ellipsis else s
  }

  /** Shortening a preview again changes nothing. */
  lemma {:induction false} PreviewIdempotent(s: string)
    ensures Preview(Preview(s)) == Preview(s)
  {
    if |s| > PreviewLength {
      var p := Preview(s);
      assert p[..PreviewLength] == s[..PreviewLength];
    }
  }

  /** `QuoteAdmin.text_preview`: never longer than 103 characters; the text
      itself when it fits in 100, otherwise its first 100 characters followed
      by "...". */
  function TextPreview(q: QuoteRecord): (r: string)
    ensures |r| <= PreviewLength + |Ellipsis|
    ensures |q.text| <= PreviewLength ==> r == q.text
    ensures |q.text| > PreviewLength ==> |r| == PreviewLength + |Ellipsis| && r[..PreviewLength] == q.text[..PreviewLength] && r[PreviewLength..] == Ellipsis
  {
    Preview(q.text)
  }

  /** `RoutineLogAdmin.error_preview`: "-" for an empty message, the preview
      of the message otherwise. */
  function ErrorPreview(l: LogRecord): (r: string)
    ensures l.errorMessage == "" ==> r == "-"
    ensures l.errorMessage != "" ==> r == Preview(l.errorMessage) && r != ""
    ensures |r| <= PreviewLength + |Ellipsis|
  {
    if l.errorMessage != "" then Preview(l.errorMessage) else "-"
  }

  /** A log shows "-" in the error column only when it has no message or its
      message is "-" itself. */
  lemma {:induction false} ErrorPreviewDash(l: LogRecord)
    ensures ErrorPreview(l) == "-" <==> l.errorMessage == "" || l.errorMessage == "-"
  {
  }

  /** `f"{duration:.1f}s"` for a whole number of seconds. */
  function SecondsText(d: int): (r: string)
    ensures |r| >= 3 && r[|r| - 3..] == ".0s"
  {
    (if d < 0 then "-" else "") + NatToString(if d < 0 then -d else d) + ".0s"
  }

  /** `RoutineLogAdmin.duration_display`: "-" when there is no duration or it
      is zero (a falsy number), the seconds otherwise. */
  function DurationDisplay(l: LogRecord): (r: string)
    ensures r == "-" <==> DurationSeconds(l) == None || DurationSeconds(l) == Some(0)
    ensures r != "-" ==> r == SecondsText(DurationSeconds(l).value)
  {
    var d := DurationSeconds(l);
    if d.Some? && d.value != 0 then SecondsText(d.value) else "-"
  }

  /** `RoutineLogAdmin.has_add_permission`: logs are never added by hand. */
  function HasAddPermission(): (r: bool)
    ensures !r
  {
    false
  }
}
