/**
 * The settings page: four groups of named values edited through form controls, and a
 * "saved" flag.
 */
module Settings {

  /** A setting's value: the switches store booleans, the selects and the slider numbers,
      the text fields (including the number field) strings. */
  datatype Value = Bool(b: bool) | Num(n: int) | Str(s: string)

  datatype Group = Audio | Processing | Privacy | Api

  /** The `settings` record: one map from field name to value per group. */
  datatype Record = Record(
    audio: map<string, Value>,
    processing: map<string, Value>,
    privacy: map<string, Value>,
    api: map<string, Value>)
  {
    function Get(g: Group): map<string, Value> {
      match g
      case Audio => audio
      case Processing => processing
      case Privacy => privacy
      case Api => api
    }
  }

  /** `event.target`: the control's `name`, `type`, `value` and `checked`. A control that
      has no `type` (the slider's synthetic event) carries the empty string. */
  datatype Target = Target(name: string, kind: string, value: Value, checked: bool)

  /** The defaults the page starts from. */
  const Defaults := Record(
    map["noiseReduction" := Bool(true), "voiceIsolation" := Bool(true),
        "sampleRate" := Num(44100), "noiseThreshold" := Num(75)],
    map["model" := Str("whisper-medical"), "language" := Str("en"),
        "summarizationLevel" := Str("detailed")],
    map["encryptData" := Bool(true), "autoDeleteAfter" := Num(30), "saveTranscripts" := Bool(true)],
    map["apiKey" := Str("sk-*****************************"), "endpoint" := Str("https://api.example.com/v1")])

  /** The value a handler stores: the audio and privacy handlers take `checked` from a
      checkbox and `value` from anything else; the processing and api handlers always take
      `value`. */
  function NewValue(g: Group, t: Target): (v: Value)
    ensures (g == Audio || g == Privacy) && t.kind == "checkbox" ==> v == Bool(t.checked)
    ensures !((g == Audio || g == Privacy) && t.kind == "checkbox") ==> v == t.value
  {
    if (g == Audio || g == Privacy) && t.kind == "checkbox" then Bool(t.checked) else t.value
  }

  /** `{ ...settings, [group]: { ...settings[group], [name]: v } }`. */
  function Update(s: Record, g: Group, name: string, v: Value): (r: Record)
    ensures r.Get(g).Keys == s.Get(g).Keys + {name}
    ensures r.Get(g)[name] == v
    ensures forall k | k in s.Get(g) && k != name :: r.Get(g)[k] == s.Get(g)[k]
    ensures forall h | h != g :: r.Get(h) == s.Get(h)
  {
    match g
    case Audio => s.(audio := s.audio[name := v])
    case Processing => s.(processing := s.processing[name := v])
    case Privacy => s.(privacy := s.privacy[name := v])
    case Api => s.(api := s.api[name := v])
  }

  /** A name the group does not have yet becomes a new field of that group. */
  lemma UpdateAddsField(s: Record, g: Group, name: string, v: Value)
    requires name !in s.Get(g)
    ensures |Update(s, g, name, v).Get(g)| == |s.Get(g)| + 1
  {
    var r := Update(s, g, name, v);
    assert r.Get(g).Keys == s.Get(g).Keys + {name};
    assert |r.Get(g).Keys| == |s.Get(g).Keys| + 1;
  }

  /** Changing a field to the value it already has gives back the same record. */
  lemma UpdateSame(s: Record, g: Group, name: string)
    requires name in s.Get(g)
    ensures Update(s, g, name, s.Get(g)[name]) == s
  {
    match g
    case Audio => assert s.audio[name := s.audio[name]] == s.audio;
    case Processing => assert s.processing[name := s.processing[name]] == s.processing;
    case Privacy => assert s.privacy[name := s.privacy[name]] == s.privacy;
    case Api => assert s.api[name := s.api[name]] == s.api;
  }

  /** The last change to a field is the one that stays. */
  lemma UpdateOverwrites(s: Record, g: Group, name: string, v: Value, w: Value)
    ensures Update(Update(s, g, name, v), g, name, w) == Update(s, g, name, w)
  {
    match g
    case Audio => assert s.audio[name := v][name := w] == s.audio[name := w];
    case Processing => assert s.processing[name := v][name := w] == s.processing[name := w];
    case Privacy => assert s.privacy[name := v][name := w] == s.privacy[name := w];
    case Api => assert s.api[name := v][name := w] == s.api[name := w];
  }

  class SettingsPage {
    var settings: Record
    var saved: bool

    /** The defaults, not yet saved. */
    constructor()
      ensures settings == Defaults && !saved
      ensures settings.Get(Audio)["noiseThreshold"] == Num(75)
      ensures settings.Get(Privacy)["autoDeleteAfter"] == Num(30)
    {
      settings := Defaults;
      saved := false;
    }

    /** The four change handlers: each replaces the named field of its own group and clears
        `saved`. No range check is made: a slider or number-field value is stored as it
        arrives. */
    method HandleAudioSettingsChange(t: Target)
      modifies this
      ensures settings == Update(old(settings), Audio, t.name, NewValue(Audio, t)) && !saved
    {
      settings := Update(settings, Audio, t.name, NewValue(Audio, t));
      saved := false;
    }

    method HandleProcessingSettingsChange(t: Target)
      modifies this
      ensures settings == Update(old(settings), Processing, t.name, t.value) && !saved
    {
      settings := Update(settings, Processing, t.name, NewValue(Processing, t));
      saved := false;
    }

    method HandlePrivacySettingsChange(t: Target)
      modifies this
      ensures settings == Update(old(settings), Privacy, t.name, NewValue(Privacy, t)) && !saved
    {
      settings := Update(settings, Privacy, t.name, NewValue(Privacy, t));
      saved := false;
    }

    method HandleApiSettingsChange(t: Target)
      modifies this
      ensures settings == Update(old(settings), Api, t.name, t.value) && !saved
    {
      settings := Update(settings, Api, t.name, NewValue(Api, t));
      saved := false;
    }

    /** `handleSaveSettings`: only the flag changes; the record is not stored anywhere. */
    method HandleSaveSettings()
      modifies this
      ensures saved && settings == old(settings)
    {
      saved := true;
    }

    /** The timer three seconds after saving hides the confirmation again. */
    method SavedTimerFired()
      modifies this
      ensures !saved && settings == old(settings)
    {
      saved := false;
    }
  }
}
