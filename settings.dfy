/** Two small pure rules of the bot: the defaults merge of `load_settings`
    and the file-name sanitiser `_safe_name` used for screenshots. */
module Settings {
  import opened Text

  /** `load_settings`: `{**defaults, **loaded}` when the settings file could be
      read (`loaded` present), otherwise a copy of the defaults. */
  function LoadSettings<V>(defaults: map<string, V>, loaded: Option<map<string, V>>): (r: map<string, V>)
    ensures loaded.None? ==> r == defaults
    ensures loaded.Some? ==> r.Keys == defaults.Keys + loaded.value.Keys
    ensures loaded.Some? ==> forall k :: k in loaded.value ==> r[k] == loaded.value[k]
    ensures forall k :: k in defaults && (loaded.None? || k !in loaded.value) ==> k in r && r[k] == defaults[k]
  {
    match loaded
    case None => defaults
    case Some(m) => defaults + m
  }

  /** Loading the same file twice gives the same settings as loading it once:
      a merged result already holds every default key. */
  lemma LoadSettingsIdempotent<V>(defaults: map<string, V>, loaded: map<string, V>)
    ensures LoadSettings(defaults, Some(LoadSettings(defaults, Some(loaded)))) == LoadSettings(defaults, Some(loaded))
  {
  }

  /** Characters `_safe_name` keeps: `[a-zA-Z0-9\-_.]`. */
  predicate SafeChar(c: char) {
    ('a' <= c <= 'z') || ('A' <= c <= 'Z') || ('0' <= c <= '9') || c == '-' || c == '_' || c == '.'
  }

  predicate AllSafe(s: string) {
    forall i :: 0 <= i < |s| ==> SafeChar(s[i])
  }

  /** Drops the run of unsafe characters at the front. */
  function DropUnsafe(s: string): (r: string)
    ensures |r| <= |s| && r == s[|s| - |r|..]
    ensures |r| > 0 ==> SafeChar(r[0])
    decreases |s|
  {
    if |s| > 0 && !SafeChar(s[0]) then DropUnsafe(s[1..]) else s
  }

  /** `re.sub(r'[^a-zA-Z0-9\-_.]+', '_', s)`: every maximal run of unsafe
      characters becomes one underscore. */
  function ReplaceUnsafeRuns(s: string): (r: string)
    ensures AllSafe(r)
    ensures |r| <= |s|
    ensures |s| > 0 ==> |r| > 0
    decreases |s|
  {
    if |s| == 0 then ""
    else if !SafeChar(s[0]) then "_" + ReplaceUnsafeRuns(DropUnsafe(s))
    else [s[0]] + ReplaceUnsafeRuns(s[1..])
  }

  /** `_safe_name`: default "error" for an empty reason, strip, replace unsafe
      runs, keep at most 80 characters. */
  function SafeName(s: string): (r: string)
    ensures |r| <= 80
    ensures AllSafe(r)
    ensures Strip(if s == "" then "error" else s) != "" ==> r != ""
  {
    var t := Strip(if s == "" then "error" else s);
    var u := ReplaceUnsafeRuns(t);
    if |u| > 80 then u[..80] else u
  }

  lemma {:induction false} ReplaceUnsafeRunsKeepsSafe(s: string)
    requires AllSafe(s)
    ensures ReplaceUnsafeRuns(s) == s
    decreases |s|
  {
    if |s| > 0 {
      assert AllSafe(s[1..]);
      ReplaceUnsafeRunsKeepsSafe(s[1..]);
    }
  }

  lemma {:induction false} StripKeepsSafe(s: string)
    requires AllSafe(s)
    ensures Strip(s) == s
  {
    if |s| > 0 {
      assert !IsSpace(s[|s| - 1]);
      assert TrimEnd(s) == s;
      assert !IsSpace(s[0]);
    }
  }

  /** A sanitised name is a fixed point of `_safe_name`. */
  lemma SafeNameIdempotent(s: string)
    requires SafeName(s) != ""
    ensures SafeName(SafeName(s)) == SafeName(s)
  {
    var r := SafeName(s);
    StripKeepsSafe(r);
    ReplaceUnsafeRunsKeepsSafe(r);
  }
}
