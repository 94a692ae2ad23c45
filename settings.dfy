/**
 * `normalize_settings`: turns whatever JSON a settings file or request holds
 * into the two polling settings, each an integer in [5, 3600]. Both
 * stu_homework.py files carry the same definition.
 */
module Settings {
  import opened Wrappers
  import opened Json

  const PollKey := "server_poll_interval_seconds"
  const RefreshKey := "client_refresh_seconds"
  /** `POLL_INTERVAL` and the client refresh default of `DEFAULT_SETTINGS`. */
  const DefaultPoll := 300
  const DefaultRefresh := 60
  const MinSeconds := 5
  const MaxSeconds := 3600

  /** The normalised settings object: exactly the two keys. */
  datatype Settings = Settings(serverPollIntervalSeconds: int, clientRefreshSeconds: int)

  predicate InRange(n: int) {
    MinSeconds <= n <= MaxSeconds
  }

  /** One key of the loop in `normalize_settings`: read with the default as
      fallback, convert with `int`, fall back to the default when that raises,
      then clamp to [5, 3600]. */
  function NormalizeValue(fields: map<string, Json>, key: string, default: int): (v: int)
    ensures InRange(v)
    ensures key !in fields && InRange(default) ==> v == default
    ensures key in fields && PyInt(fields[key]).None? && InRange(default) ==> v == default
    ensures key in fields && PyInt(fields[key]).Some? && InRange(PyInt(fields[key]).value) ==> v == PyInt(fields[key]).value
  {
    var raw := Get(fields, key, JInt(default));
    var value := match PyInt(raw) case Some(i) => i case None => default;
    if value < MinSeconds then MinSeconds else if value > MaxSeconds then MaxSeconds else value
  }

  /** `normalize_settings(data)`: total; the defaults when `data` is not a dict. */
  function NormalizeSettings(data: Json): (s: Settings)
    ensures InRange(s.serverPollIntervalSeconds) && InRange(s.clientRefreshSeconds)
    ensures !data.JObj? ==> s == Settings(DefaultPoll, DefaultRefresh)
  {
    match data
    case JObj(f) => Settings(NormalizeValue(f, PollKey, DefaultPoll), NormalizeValue(f, RefreshKey, DefaultRefresh))
    case _ => Settings(DefaultPoll, DefaultRefresh)
  }

  /** The settings as the JSON document `save_settings` writes. */
  function ToJson(s: Settings): Json {
    JObj(map[PollKey := JInt(s.serverPollIntervalSeconds), RefreshKey := JInt(s.clientRefreshSeconds)])
  }

  /** A missing or non-integer value falls back to that key's own default. */
  lemma MissingFallsBackToDefault(f: map<string, Json>)
    requires PollKey !in f || PyInt(f[PollKey]).None?
    requires RefreshKey !in f || PyInt(f[RefreshKey]).None?
    ensures NormalizeSettings(JObj(f)) == Settings(DefaultPoll, DefaultRefresh)
  {
  }

  /** Values already in range are kept, values out of range are clamped to the nearer bound. */
  lemma ClampsEachKey(f: map<string, Json>, key: string, default: int)
    requires key in f && PyInt(f[key]).Some?
    ensures PyInt(f[key]).value < MinSeconds ==> NormalizeValue(f, key, default) == MinSeconds
    ensures PyInt(f[key]).value > MaxSeconds ==> NormalizeValue(f, key, default) == MaxSeconds
  {
  }

  /** Saving normalised settings and loading them again gives the same settings. */
  lemma NormalizeSettingsIdempotent(data: Json)
    ensures NormalizeSettings(ToJson(NormalizeSettings(data))) == NormalizeSettings(data)
  {
    var s := NormalizeSettings(data);
    var f := ToJson(s).fields;
    assert PollKey != RefreshKey;
    assert f[PollKey] == JInt(s.serverPollIntervalSeconds);
    assert f[RefreshKey] == JInt(s.clientRefreshSeconds);
  }
}
