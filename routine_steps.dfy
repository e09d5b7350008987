/**
 * The step variants of a routine (alarm, news, weather, URL opener, quote),
 * their configuration checks, the guards and outcomes of `execute`, the pure
 * helpers they use, and the registry that maps a type tag to a variant.
 *
 * External actions (playing audio, speech synthesis, fetching a feed or a
 * forecast, opening a browser tab) are not performed: `execute` returns the
 * list of actions it would issue, and what the outside world answered is an
 * explicit `External` argument.
 */
module RoutineSteps {
  import opened Wrappers
  import opened Values
  import Text

  /** The closed set of step variants. */
  datatype Kind = Alarm | News | Weather | UrlOpener | QuoteFetcher

  /** The Python class name of each variant, used in validation messages. */
  function ClassName(k: Kind): string {
    match k
    case Alarm => "Alarm"
    case News => "News"
    case Weather => "WeatherUtil"
    case UrlOpener => "URLOpener"
    case QuoteFetcher => "QuoteFetcher"
  }

  /** A step instance: its variant, its configuration and its stop flag. The
      configuration is whatever `config or {}` kept: normally a dictionary, but
      any other truthy value a stored record held is kept as it is. */
  datatype Step = Step(kind: Kind, config: Value, stopped: bool)

  /** `config or {}`, as `RoutineStep.__init__` stores it. */
  function KeptConfig(v: Value): (c: Value)
    ensures Truthy(v) ==> c == v
    ensures !Truthy(v) ==> c == Dict(map[])
  {
    if Truthy(v) then v else Dict(map[])
  }

  /** The keys and values `self.config.get` reads; only a dictionary has any. */
  function Settings(s: Step): Config {
    if s.config.Dict? then s.config.fields else map[]
  }

  /** The alarm's `os.path.exists(audio_file)` raises `TypeError`: a truthy
      list or dictionary is no path (it catches only `OSError` and `ValueError`). */
  predicate AudioPathRaises(s: Step) {
    s.kind == Alarm && HasTruthy(Settings(s), "audio_file") &&
    (Settings(s)["audio_file"].List? || Settings(s)["audio_file"].Dict?)
  }

  /** `execute` raises: the alarm and URL steps call `self.config.get` before
      their `try`, on a configuration that is not a dictionary, and the alarm
      checks its path there too. */
  predicate ExecuteRaises(s: Step) {
    (!s.config.Dict? && (s.kind == Alarm || s.kind == UrlOpener)) || AudioPathRaises(s)
  }

  /** `validate_config` raises: every variant except the quote step calls
      `self.config.get`, which a configuration that is not a dictionary lacks,
      and the alarm checks its path. */
  predicate ValidateRaises(s: Step) {
    (!s.config.Dict? && s.kind != QuoteFetcher) || AudioPathRaises(s)
  }

  /** `RoutineStep.stop`: sets the step's stop flag (terminating its external
      process is an external action, not modelled). */
  function Stop(s: Step): (r: Step)
    ensures r.stopped && r.kind == s.kind && r.config == s.config
  {
    s.(stopped := true)
  }

  lemma {:induction false} StopIdempotent(s: Step)
    ensures Stop(Stop(s)) == Stop(s)
  {
  }

  // ---------------------------------------------------------------- registry

  /** The registered type tags, with the variant each one constructs. */
  function Registry(): map<string, Kind> {
    map["alarm" := Alarm, "news" := News, "weather" := Weather,
        "url_opener" := UrlOpener, "quote" := QuoteFetcher]
  }

  /** `create_routine_step(step_type, config)`: a fresh step for a registered
      tag, `Ok(None)` for a missing tag or any other hashable value, and the
      `TypeError` the registry lookup raises for a list or a dictionary. */
  function CreateStep(tag: Option<Value>, config: Value): (r: Result<Option<Step>, string>)
    ensures r.Err? <==> tag.Some? && (tag.value.List? || tag.value.Dict?)
    ensures r.Ok? && r.value.Some? <==> tag.Some? && tag.value.Str? && tag.value.s in Registry()
    ensures r.Ok? && r.value.Some? ==> r.value.value == Step(Registry()[tag.value.s], KeptConfig(config), false)
  {
    if tag.Some? && tag.value.List? then Err("unhashable type: 'list'")
    else if tag.Some? && tag.value.Dict? then Err("unhashable type: 'dict'")
    else if tag.Some? && tag.value.Str? && tag.value.s in Registry() then
      Ok(Some(Step(Registry()[tag.value.s], KeptConfig(config), false)))
    else Ok(None)
  }

  /** The five tags, and only they, build a step. */
  lemma {:induction false} RegisteredTags(t: string, config: Value)
    ensures CreateStep(Some(Str(t)), config).Ok?
    ensures CreateStep(Some(Str(t)), config).value.Some? <==>
            t in {"alarm", "news", "weather", "url_opener", "quote"}
  {
  }

  /** Every variant is reachable from some tag. */
  lemma {:induction false} RegistryCoversKinds(k: Kind)
    ensures exists t :: t in Registry() && Registry()[t] == k
  {
    match k
    case Alarm => assert Registry()["alarm"] == Alarm;
    case News => assert Registry()["news"] == News;
    case Weather => assert Registry()["weather"] == Weather;
    case UrlOpener => assert Registry()["url_opener"] == UrlOpener;
    case QuoteFetcher => assert Registry()["quote"] == QuoteFetcher;
  }

  // -------------------------------------------------------------- validation

  /** `validate_config()`: `None` when the configuration is valid, else the
      error message. File existence is the injected predicate `fileExists`. */
  function ValidateConfig(s: Step, fileExists: Value -> bool): (err: Option<string>)
    requires !ValidateRaises(s)
    ensures s.kind == Alarm ==>
      (!HasTruthy(Settings(s), "audio_file") ==> err == Some("audio_file is required")) &&
      (HasTruthy(Settings(s), "audio_file") && !fileExists(Settings(s)["audio_file"]) ==>
         err == Some("Audio file not found: " + Display(Settings(s)["audio_file"]))) &&
      (err.None? <==> HasTruthy(Settings(s), "audio_file") && fileExists(Settings(s)["audio_file"]))
    ensures s.kind == News ==> (err.None? <==> HasTruthy(Settings(s), "rss_url"))
    ensures s.kind == UrlOpener ==> (err.None? <==> HasTruthy(Settings(s), "url"))
    ensures s.kind == Weather ==>
      (err.None? <==> HasTruthy(Settings(s), "latitude") && HasTruthy(Settings(s), "longitude"))
    ensures s.kind == QuoteFetcher ==> err.None?
  {
    match s.kind
    case Alarm =>
      if !HasTruthy(Settings(s), "audio_file") then Some("audio_file is required")
      else if !fileExists(Settings(s)["audio_file"]) then
        Some("Audio file not found: " + Display(Settings(s)["audio_file"]))
      else None
    case News =>
      if !HasTruthy(Settings(s), "rss_url") then Some("rss_url is required") else None
    case Weather =>
      if !HasTruthy(Settings(s), "latitude") || !HasTruthy(Settings(s), "longitude") then
        Some("latitude and longitude are required")
      else None
    case UrlOpener =>
      if !HasTruthy(Settings(s), "url") then Some("url is required") else None
    case QuoteFetcher => None
  }

  /** The step's stop flag plays no part in validation. */
  lemma {:induction false} ValidateIgnoresStop(s: Step, fileExists: Value -> bool)
    requires !ValidateRaises(s)
    ensures ValidateConfig(Stop(s), fileExists) == ValidateConfig(s, fileExists)
  {
  }

  // ------------------------------------------------------ speech and phrases

  const TextPlaceholder := "{text}"
  const TtsPrefix := "simple_google_tts en \""
  /** `simple_google_tts en "{text}"`, the template used when none is configured. */
  const DefaultTtsCommand := TtsPrefix + TextPlaceholder + "\""
  const DefaultIntro := "Your quote of the day is"

  /** The command `_speak_text` runs: the configured template (or the default)
      with every `{text}` replaced; `None` when the configured template is not
      a string, where Python's `replace` raises. */
  function TtsCommand(config: Config, text: string): (r: Option<string>)
    ensures "tts_command" !in config ==> r == Some(Text.ReplaceAll(DefaultTtsCommand, TextPlaceholder, text))
    ensures "tts_command" in config ==>
      (r.Some? <==> config["tts_command"].Str?) &&
      (r.Some? ==> r.value == Text.ReplaceAll(config["tts_command"].s, TextPlaceholder, text))
  {
    match GetOr(config, "tts_command", Str(DefaultTtsCommand))
    case Str(t) => Some(Text.ReplaceAll(t, TextPlaceholder, text))
    case _ => None
  }

  /** Substitution replaces every placeholder: the command is the template's
      placeholder-free pieces joined by the text. */
  lemma {:induction false} TtsSubstitution(template: string, text: string)
    ensures Text.ReplaceAll(template, TextPlaceholder, text) ==
            Text.Join(Text.Split(template, TextPlaceholder), text)
    ensures forall k :: 0 <= k < |Text.Split(template, TextPlaceholder)| ==>
            !Text.Contains(Text.Split(template, TextPlaceholder)[k], TextPlaceholder)
    ensures Text.Join(Text.Split(template, TextPlaceholder), TextPlaceholder) == template
  {
    Text.ReplaceAllIsSplitJoin(template, TextPlaceholder, text);
    Text.SplitPiecesAreFree(template, TextPlaceholder);
    Text.JoinSplit(template, TextPlaceholder);
  }

  /** With the default template the text ends up inside double quotes. */
  lemma {:induction false} DefaultTtsQuotesText(text: string)
    ensures Text.ReplaceAll(DefaultTtsCommand, TextPlaceholder, text) == TtsPrefix + text + "\""
  {
    var post := "\"";
    var cmd := DefaultTtsCommand;
    assert cmd[|TtsPrefix|..|TtsPrefix| + |TextPlaceholder|] == TextPlaceholder;
    assert forall j :: 0 <= j < |TtsPrefix| ==> cmd[j] != '{' by {
      forall j | 0 <= j < |TtsPrefix| ensures cmd[j] != '{' {
        assert cmd[j] == TtsPrefix[j];
      }
    }
    Text.IndexOfAfterFreePrefix(cmd, TextPlaceholder, |TtsPrefix|);
    Text.IndexOfNoFirstChar(post, TextPlaceholder);
    assert cmd[..|TtsPrefix|] == TtsPrefix;
    assert cmd[|TtsPrefix| + |TextPlaceholder|..] == post;
    assert Text.Split(cmd, TextPlaceholder) == [TtsPrefix] + Text.Split(post, TextPlaceholder);
    Text.ReplaceAllIsSplitJoin(cmd, TextPlaceholder, text);
    Text.JoinCons(TtsPrefix, [post], text);
  }

  /** QuoteFetcher's spoken message. */
  function QuoteMessage(intro: string, text: string, author: string): (m: string)
    ensures author != "" ==> m == intro + ": " + text + " - " + author
    ensures author == "" ==> m == intro + ": " + text
  {
    if author != "" then intro + ": " + text + " - " + author else intro + ": " + text
  }

  /** The attribution is an optional tail on the author-less message. */
  lemma {:induction false} QuoteMessageExtends(intro: string, text: string, author: string)
    requires author != ""
    ensures QuoteMessage(intro, text, author) == QuoteMessage(intro, text, "") + " - " + author
  {
  }

  // ------------------------------------------------------------------ weather

  const Suggestions: seq<string> := [
    "I recommend long sleeves and a thick coat",
    "I recommend dressing in long sleeves",
    "I recommend wearing shorts and a light jacket",
    "I recommend wearing short sleeves",
    " and I suggest wearing a wind-breaker",
    "; I also recommend a rain jacket or an umbrella"
  ]

  const WindSuffix := " and I suggest wearing a wind-breaker"
  const RainSuffix := "; I also recommend a rain jacket or an umbrella"

  /** Which of the four base phrases a temperature selects. */
  function TemperatureBand(temp: int): (b: nat)
    ensures b < 4
    ensures b == 0 <==> temp < 53
    ensures b == 1 <==> 53 <= temp < 60
    ensures b == 2 <==> 60 <= temp < 69
    ensures b == 3 <==> 69 <= temp
  {
    if temp < 53 then 0 else if temp < 60 then 1 else if temp < 69 then 2 else 3
  }

  predicate ForecastMentionsRain(forecast: string) {
    Text.Contains(Text.Lower(forecast), "rain")
  }

  /** `_get_outfit_recommendation(temp, wind_speed, forecast)`. */
  function OutfitRecommendation(temp: int, windSpeed: int, forecast: string): string
  {
    var base := if temp < 53 then Suggestions[0]
                else if temp < 60 then Suggestions[1]
                else if temp < 69 then Suggestions[2]
                else Suggestions[3];
    var withWind := if windSpeed > 14 then base + Suggestions[4] else base;
    if ForecastMentionsRain(forecast) then withWind + Suggestions[5] else withWind
  }

  predicate EndsWith(s: string, suffix: string) {
    |suffix| <= |s| && s[|s| - |suffix|..] == suffix
  }

  /** Reads a recommendation back into the three decisions it encodes: the
      base phrase, whether the wind suffix follows it, and whether the rain
      suffix ends it. */
  function ParseRecommendation(s: string): Option<(nat, bool, bool)>
  {
    var rain := EndsWith(s, RainSuffix);
    var s1 := if rain then s[..|s| - |RainSuffix|] else s;
    var wind := EndsWith(s1, WindSuffix);
    var s2 := if wind then s1[..|s1| - |WindSuffix|] else s1;
    match BaseBand(s2)
    case None => None
    case Some(band) => Some((band, wind, rain))
  }

  /** Which base phrase a string is, if any. */
  function BaseBand(s: string): Option<nat>
  {
    if s == Suggestions[0] then Some(0)
    else if s == Suggestions[1] then Some(1)
    else if s == Suggestions[2] then Some(2)
    else if s == Suggestions[3] then Some(3)
    else None
  }

  /** The four base phrases are told apart (they differ in length). */
  lemma {:induction false} BaseBandOf(band: nat)
    requires band < 4
    ensures BaseBand(Suggestions[band]) == Some(band)
  {
    assert |Suggestions[0]| == 41 && |Suggestions[1]| == 36 && |Suggestions[2]| == 45 && |Suggestions[3]| == 33;
  }

  /** The recommendation assembled from the three decisions. */
  function Assembled(band: nat, wind: bool, rain: bool): string
    requires band < 4
  {
    Suggestions[band] + (if wind then WindSuffix else "") + (if rain then RainSuffix else "")
  }

  /** The three decisions can be read back from an assembled recommendation. */
  lemma {:induction false} ParseAssembled(band: nat, wind: bool, rain: bool)
    requires band < 4
    ensures ParseRecommendation(Assembled(band, wind, rain)) == Some((band, wind, rain))
  {
    var base := Suggestions[band];
    assert base[|base| - 1] == 't' || base[|base| - 1] == 's';
    var withWind := base + (if wind then WindSuffix else "");
    assert withWind[|withWind| - 1] != RainSuffix[|RainSuffix| - 1];
    var t := withWind + (if rain then RainSuffix else "");
    assert t == Assembled(band, wind, rain);
    StripSuffix(withWind, RainSuffix, rain);
    var s1 := if rain then t[..|t| - |RainSuffix|] else t;
    assert s1 == withWind;
    StripSuffix(base, WindSuffix, wind);
    var s2 := if wind then s1[..|s1| - |WindSuffix|] else s1;
    assert s2 == base;
    BaseBandOf(band);
  }

  /** An optional suffix is recognised exactly when it was appended. */
  lemma {:induction false} StripSuffix(s: string, suffix: string, present: bool)
    requires |s| > 0 && |suffix| > 0 && s[|s| - 1] != suffix[|suffix| - 1]
    ensures var t := s + (if present then suffix else "");
            EndsWith(t, suffix) == present &&
            (present ==> t[..|t| - |suffix|] == s)
  {
    var t := s + (if present then suffix else "");
    if present {
      assert t[|t| - |suffix|..] == suffix;
      assert t[..|t| - |suffix|] == s;
    } else {
      LastCharBlocks(s, suffix);
      assert t == s;
    }
  }

  lemma {:induction false} LastCharBlocks(s: string, suffix: string)
    requires |s| > 0 && |suffix| > 0 && s[|s| - 1] != suffix[|suffix| - 1]
    ensures !EndsWith(s, suffix)
  {
  }

  /** A recommendation holds exactly one base phrase, chosen by the temperature
      thresholds, followed by the wind suffix exactly when the wind exceeds 14,
      then the rain suffix exactly when the forecast mentions rain. */
  lemma {:induction false} OutfitDecisions(temp: int, windSpeed: int, forecast: string)
    ensures ParseRecommendation(OutfitRecommendation(temp, windSpeed, forecast)) ==
            Some((TemperatureBand(temp), windSpeed > 14, ForecastMentionsRain(forecast)))
  {
    OutfitIsAssembled(temp, windSpeed, forecast);
    ParseAssembled(TemperatureBand(temp), windSpeed > 14, ForecastMentionsRain(forecast));
  }

  /** The recommendation is the band's phrase followed by the suffixes chosen. */
  lemma {:induction false} OutfitIsAssembled(temp: int, windSpeed: int, forecast: string)
    ensures OutfitRecommendation(temp, windSpeed, forecast) ==
            Assembled(TemperatureBand(temp), windSpeed > 14, ForecastMentionsRain(forecast))
  {
  }

  /** `_parse_wind_speed("A to B mph")` is B and `_parse_wind_speed("A mph")`
      is A; a string `int()` rejects gives `None`. */
  function ParseWindSpeed(windSpeed: string): Option<int>
  {
    if Text.Contains(windSpeed, " to ") then
      Text.SplitAtOccurrence(windSpeed, " to ");
      var parts := Text.Split(windSpeed, " to ");
      Text.ParseInt(Text.ReplaceAll(parts[1], " mph", ""))
    else
      Text.ParseInt(Text.ReplaceAll(windSpeed, " mph", ""))
  }

  /** No " to " occurs in a number followed by " mph". */
  lemma {:induction false} NoRangeSeparator(e: string)
    requires Text.IsDigits(e)
    ensures !Text.Contains(e + " mph", " to ")
  {
    var s := e + " mph";
    forall j: nat | j + 4 <= |s| ensures s[j] != ' ' || s[j + 1] != 't' {
      if j < |e| {
        assert s[j] == e[j];
      } else {
        assert j == |e| && s[j + 1] == 'm';
      }
    }
    forall j: nat ensures !Text.OccursAt(s, j, " to ") {
      if j + 4 <= |s| {
        var w := s[j..j + 4];
        assert w[0] == s[j] && w[1] == s[j + 1];
      }
    }
    Text.IndexOfSpec(s, " to ");
  }

  /** Removing " mph" from a number followed by " mph" leaves the number. */
  lemma {:induction false} RemoveMph(e: string)
    requires Text.IsDigits(e)
    ensures Text.ReplaceAll(e + " mph", " mph", "") == e
  {
    var s := e + " mph";
    assert s[|e|..|e| + 4] == " mph";
    Text.IndexOfAfterFreePrefix(s, " mph", |e|);
    assert s[..|e|] == e && s[|e| + 4..] == "";
    assert Text.Split("", " mph") == [""];
    assert Text.Split(s, " mph") == [e, ""];
    Text.ReplaceAllIsSplitJoin(s, " mph", "");
  }

  /** `A to B mph` splits on " to " into `A` and `B mph`. */
  lemma {:induction false} SplitRange(d: string, e: string)
    requires Text.IsDigits(d) && Text.IsDigits(e)
    ensures Text.Split(d + " to " + e + " mph", " to ") == [d, e + " mph"]
  {
    var s := d + " to " + e + " mph";
    assert s[|d|..|d| + 4] == " to ";
    Text.IndexOfAfterFreePrefix(s, " to ", |d|);
    assert s[..|d|] == d && s[|d| + 4..] == e + " mph";
    NoRangeSeparator(e);
  }

  /** `_parse_wind_speed("A to B mph") == B`. */
  lemma {:induction false} WindSpeedRange(a: nat, b: nat)
    ensures ParseWindSpeed(Text.NatToString(a) + " to " + Text.NatToString(b) + " mph") == Some(b)
  {
    var d, e := Text.NatToString(a), Text.NatToString(b);
    SplitRange(d, e);
    RemoveMph(e);
    Text.ParseIntOfNatString(b);
  }

  /** `_parse_wind_speed("A mph") == A`. */
  lemma {:induction false} WindSpeedSingle(a: nat)
    ensures ParseWindSpeed(Text.NatToString(a) + " mph") == Some(a)
  {
    var d := Text.NatToString(a);
    NoRangeSeparator(d);
    RemoveMph(d);
    Text.ParseIntOfNatString(a);
  }

  // ---------------------------------------------------------------- execute

  datatype FeedEntry = FeedEntry(title: string, summary: string)
  datatype WeatherReport = WeatherReport(temperature: int, windSpeed: string, detailedForecast: string)
  datatype QuoteText = QuoteText(text: string, author: string)

  /** What the outside world answers when a step calls it. */
  datatype External = External(
    callSucceeds: bool,              // the player process or the browser call did not raise
    feed: Option<FeedEntry>,         // the feed's first entry (summary already cleaned); None: no entry or an error
    weather: Option<WeatherReport>,  // the current forecast period; None: a failed request
    quote: Option<QuoteText>)        // a random active quote; None: there is none

  /** The external calls a step issues, in order. */
  datatype Action =
    | PlayAudio(path: Value)
    | FetchFeed(url: Value)
    | DownloadImages(keywords: string)
    | FetchForecast(latitude: Value, longitude: Value)
    | FetchQuote
    | Speak(command: string)
    | OpenTab(url: Value)

  /** The boolean `execute()` returns, the calls it made, whether an
      exception escaped it instead (then `ok` is false), and whether the step
      called its own `stop()` (a timed alarm does, once its time is up). */
  datatype StepRun = StepRun(ok: bool, actions: seq<Action>, raised: bool, selfStopped: bool)

  /** The configuration each `execute` checks before it calls anything. */
  predicate ExecuteGuard(s: Step, fileExists: Value -> bool) {
    match s.kind
    case Alarm => HasTruthy(Settings(s), "audio_file") && fileExists(Settings(s)["audio_file"])
    case News => HasTruthy(Settings(s), "rss_url")
    case Weather => HasTruthy(Settings(s), "latitude") && HasTruthy(Settings(s), "longitude")
    case UrlOpener => HasTruthy(Settings(s), "url")
    case QuoteFetcher => true
  }

  /** Speaks `text` after the calls already made; fails when the template is not a string. */
  function SpeakAfter(config: Config, before: seq<Action>, text: string): (run: StepRun)
    ensures run.ok <==> TtsCommand(config, text).Some?
    ensures run.ok ==> run.actions == before + [Speak(TtsCommand(config, text).value)]
    ensures !run.ok ==> run.actions == before
  {
    match TtsCommand(config, text)
    case None => StepRun(false, before, false, false)
    case Some(cmd) => StepRun(true, before + [Speak(cmd)], false, false)
  }

  /** The spoken weather report. */
  function WeatherText(report: WeatherReport, windSpeed: int): string {
    OutfitRecommendation(report.temperature, windSpeed, report.detailedForecast) +
    " as the forecast for today calls for: " + report.detailedForecast
  }

  /** The spoken news item. */
  function NewsText(entry: FeedEntry): string {
    "Now, today's news: " + entry.title + ". " + entry.summary
  }

  /** `execute()` of each variant. A configuration that is not a dictionary
      makes the first `self.config.get` raise: the alarm and URL steps call it
      before their `try`, so the exception escapes; the news and weather steps
      call it inside theirs and return False; the quote step has already
      fetched its quote when it gets there, and returns False too. An alarm
      path that is a list or dictionary makes `os.path.exists` raise, also
      before the `try`. */
  function Execute(s: Step, fileExists: Value -> bool, ext: External): (run: StepRun)
    ensures run.raised <==> ExecuteRaises(s)
    ensures run.raised ==> !run.ok
    ensures !s.config.Dict? ==>
              !run.ok && run.actions == (if s.kind == QuoteFetcher then [FetchQuote] else [])
    ensures s.config.Dict? && !ExecuteRaises(s) && !ExecuteGuard(s, fileExists) ==>
              run == StepRun(false, [], false, false)
    ensures s.config.Dict? && !ExecuteRaises(s) && ExecuteGuard(s, fileExists) && s.kind != UrlOpener ==>
              |run.actions| >= 1
    ensures run.selfStopped ==> s.kind == Alarm && run.ok
    ensures run.selfStopped <==> StopsItself(s, fileExists, ext)
  {
    if !s.config.Dict? then
      match s.kind
      case Alarm => StepRun(false, [], true, false)
      case UrlOpener => StepRun(false, [], true, false)
      case News => StepRun(false, [], false, false)
      case Weather => StepRun(false, [], false, false)
      case QuoteFetcher => StepRun(false, [FetchQuote], false, false)
    else if AudioPathRaises(s) then StepRun(false, [], true, false)
    else if !ExecuteGuard(s, fileExists) then StepRun(false, [], false, false)
    else
      var c := s.config.fields;
      match s.kind
      case Alarm =>
        var played := [PlayAudio(c["audio_file"])];
        var duration := GetOr(c, "duration", Null);
        if !ext.callSucceeds then StepRun(false, played, false, false)
        else if !Truthy(duration) then StepRun(true, played, false, false)
        // `time.time() - start_time < duration` holds only for a number; any
        // other truthy duration raises inside the `try`, before `stop()`
        else if duration.Int? || duration.Bool? then StepRun(true, played, false, true)
        else StepRun(false, played, false, false)
      case News =>
        var fetched := [FetchFeed(c["rss_url"])];
        if ext.feed.None? then StepRun(false, fetched, false, false)
        else
          var entry := ext.feed.value;
          SpeakAfter(c, fetched + [DownloadImages(entry.title)], NewsText(entry))
      case Weather =>
        var fetched := [FetchForecast(c["latitude"], c["longitude"])];
        if ext.weather.None? then StepRun(false, fetched, false, false)
        else
          var report := ext.weather.value;
          var wind := ParseWindSpeed(report.windSpeed);
          if wind.None? then StepRun(false, fetched, false, false)
          else SpeakAfter(c, fetched, WeatherText(report, wind.value))
      case UrlOpener =>
        var message := GetOr(c, "message", Null);
        if !Truthy(message) then StepRun(ext.callSucceeds, [OpenTab(c["url"])], false, false)
        else if !message.Str? then StepRun(false, [], false, false)
        else
          var spoken := SpeakAfter(c, [], message.s);
          if !spoken.ok then spoken
          else StepRun(ext.callSucceeds, spoken.actions + [OpenTab(c["url"])], false, false)
      case QuoteFetcher =>
        if ext.quote.None? then StepRun(false, [FetchQuote], false, false)
        else
          var q := ext.quote.value;
          var intro := Display(GetOr(c, "intro_text", Str(DefaultIntro)));
          SpeakAfter(c, [FetchQuote], QuoteMessage(intro, q.text, q.author))
  }

  /** The alarm plays and, given a numeric duration, calls `stop()` on itself
      once the time is up. */
  predicate StopsItself(s: Step, fileExists: Value -> bool, ext: External) {
    && s.kind == Alarm && s.config.Dict? && !AudioPathRaises(s) && ExecuteGuard(s, fileExists)
    && ext.callSucceeds
    && var d := GetOr(s.config.fields, "duration", Null);
       Truthy(d) && (d.Int? || d.Bool?)
  }

  /** `execute` calls something exactly when `validate_config` accepts the step:
      for a dictionary configuration both raise on the same alarm paths, and
      otherwise the early `return False` guards and the validation rules agree. */
  lemma {:induction false} GuardMatchesValidation(s: Step, fileExists: Value -> bool)
    requires s.config.Dict?
    ensures ValidateRaises(s) <==> ExecuteRaises(s)
    ensures !ValidateRaises(s) ==> (ExecuteGuard(s, fileExists) <==> ValidateConfig(s, fileExists).None?)
  {
  }

  /** An alarm that starts playing returns True unless the player fails or its
      duration is neither a number nor falsy, and it stops itself exactly when
      a numeric duration was given. */
  lemma {:induction false} TimedAlarmStopsItself(s: Step, fileExists: Value -> bool, ext: External)
    requires s.kind == Alarm && s.config.Dict? && !ExecuteRaises(s) && ExecuteGuard(s, fileExists)
    ensures var d := GetOr(s.config.fields, "duration", Null);
            var run := Execute(s, fileExists, ext);
            run.actions == [PlayAudio(s.config.fields["audio_file"])] && !run.raised &&
            (run.ok <==> ext.callSucceeds && (!Truthy(d) || d.Int? || d.Bool?)) &&
            (run.selfStopped <==> ext.callSucceeds && Truthy(d) && (d.Int? || d.Bool?))
  {
  }

  /** A step whose configuration fails validation returns False and calls nothing. */
  lemma {:induction false} InvalidStepDoesNothing(s: Step, fileExists: Value -> bool, ext: External)
    requires !ValidateRaises(s) && ValidateConfig(s, fileExists).Some?
    ensures Execute(s, fileExists, ext) == StepRun(false, [], false, false)
  {
    GuardMatchesValidation(s, fileExists);
  }

  /** A quote step whose configuration is not a dictionary passes validation,
      yet its `execute` fetches a quote and returns False without speaking. */
  lemma {:induction false} UnreadableQuoteConfig(s: Step, fileExists: Value -> bool, ext: External)
    requires s.kind == QuoteFetcher && !s.config.Dict?
    ensures !ValidateRaises(s) && ValidateConfig(s, fileExists).None?
    ensures Execute(s, fileExists, ext) == StepRun(false, [FetchQuote], false, false)
  {
  }

  /** With the default template, QuoteFetcher speaks the quote inside double quotes. */
  lemma {:induction false} QuoteSpoken(s: Step, fileExists: Value -> bool, ext: External)
    requires s.kind == QuoteFetcher && s.config.Dict? && ext.quote.Some?
    requires "tts_command" !in s.config.fields && "intro_text" !in s.config.fields
    ensures var q := ext.quote.value;
            Execute(s, fileExists, ext) ==
            StepRun(true, [FetchQuote, Speak(TtsPrefix + QuoteMessage(DefaultIntro, q.text, q.author) + "\"")], false, false)
  {
    var q := ext.quote.value;
    DefaultTtsQuotesText(QuoteMessage(DefaultIntro, q.text, q.author));
  }

  /** The weather step speaks its outfit advice, and fails without speaking
      when the wind speed cannot be read. */
  lemma {:induction false} WeatherOutcome(s: Step, fileExists: Value -> bool, ext: External)
    requires s.kind == Weather && s.config.Dict? && ExecuteGuard(s, fileExists) && ext.weather.Some?
    ensures var report := ext.weather.value;
            var run := Execute(s, fileExists, ext);
            (ParseWindSpeed(report.windSpeed).None? ==> !run.ok && |run.actions| == 1) &&
            (ParseWindSpeed(report.windSpeed).Some? && "tts_command" !in s.config.fields ==>
               run.ok && run.actions[|run.actions| - 1] ==
               Speak(TtsPrefix + WeatherText(report, ParseWindSpeed(report.windSpeed).value) + "\""))
  {
    var report := ext.weather.value;
    if ParseWindSpeed(report.windSpeed).Some? {
      DefaultTtsQuotesText(WeatherText(report, ParseWindSpeed(report.windSpeed).value));
    }
  }
}
