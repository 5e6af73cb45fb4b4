/**
 * The browser-side recorder component: a small state machine over the component's state
 * variables, driven by user actions (start, stop, pause, delete, analyse, upload) and by
 * events the browser delivers (recorded chunks, the recorder's stop, the one-second timer,
 * upload progress and the server's answer). Browser objects are opaque handles and each
 * handler is one atomic step.
 */
module AudioRecorder {
  import opened Wrappers
  import opened Numerals
  import AudioUtils

  /** A piece of recorded audio delivered by the recorder (`event.data`), or the bytes of an
      uploaded file; only its size matters to the component. */
  datatype Chunk = Chunk(id: nat, size: nat)

  /** `new Blob(parts, { type })`. */
  datatype Blob = Blob(parts: seq<Chunk>, mime: string)

  /** An object URL handed out by the browser for a blob. */
  type Url = nat

  /** The `state` of the browser's recorder object, or no recorder created yet. */
  datatype RecorderState = NoRecorder | Inactive | Recording | Paused
  {
    predicate Active() { this == Recording || this == Paused }
  }

  /** The multipart form sent to the back end. */
  datatype Request = Request(audio: Blob, patientId: string, visitDate: string)

  /** The parsed JSON body of a reply: only its `status` field is inspected. */
  datatype Reply = Reply(status: Option<string>, body: string)

  /** How the upload ended: a reply (possibly without a body), or a thrown error carrying
      the server's `error` field when there was one, and the error's own message. */
  datatype Outcome = Answered(data: Option<Reply>) | Failed(serverError: Option<string>, message: string)

  /** The file picked in the upload input: its MIME type and contents. */
  datatype File = File(mime: string, contents: Chunk)

  /** How reading the picked file ended. */
  datatype ReadOutcome = Loaded | ReadError

  /** Which controls the component shows. */
  datatype Screen =
    | RecordingControls(paused: bool)
    | ReviewControls(processing: bool)
    | StartControls

  const PatientId := "DEMO123"
  const RecordingMime := "audio/wav"
  const MicrophoneError := "Could not access microphone. Please check permissions."
  const RetryError := "Error processing audio. Please try again."
  const ProcessingErrorPrefix := "Error processing audio: "
  const NotAudioError := "Please upload an audio file"
  const ReadFileError := "Error reading file"

  /** The chunks `ondataavailable` keeps, in arrival order: the empty ones are dropped. */
  function Kept(events: seq<Chunk>): (r: seq<Chunk>)
    ensures forall c :: c in r <==> c in events && c.size > 0
    ensures |r| <= |events|
  {
    if events == [] then []
    else if events[|events| - 1].size > 0 then Kept(events[..|events| - 1]) + [events[|events| - 1]]
    else Kept(events[..|events| - 1])
  }

  /** The kept chunks of two stretches of events are those of the first, then those of the
      second: arrival order and repetitions are kept. */
  lemma {:induction false} KeptAppend(a: seq<Chunk>, b: seq<Chunk>)
    ensures Kept(a + b) == Kept(a) + Kept(b)
    decreases |b|
  {
    if b == [] {
      assert a + b == a;
    } else {
      var ab, init, last := a + b, b[..|b| - 1], b[|b| - 1];
      var tail := if last.size > 0 then [last] else [];
      calc {
        Kept(ab);
        { KeptLast(ab); assert ab[|ab| - 1] == last; assert ab[..|ab| - 1] == a + init; }
        Kept(a + init) + tail;
        { KeptAppend(a, init); }
        (Kept(a) + Kept(init)) + tail;
        Kept(a) + (Kept(init) + tail);
        { KeptLast(b); }
        Kept(a) + Kept(b);
      }
    }
  }

  lemma KeptLast(xs: seq<Chunk>)
    requires xs != []
    ensures Kept(xs) == Kept(xs[..|xs| - 1]) + if xs[|xs| - 1].size > 0 then [xs[|xs| - 1]] else []
  {
  }

  /** `Math.round(x)` for `x = num / den >= 0`: the nearest integer, halves rounded up. */
  function Round(num: nat, den: nat): (r: nat)
    requires den > 0
    ensures den * (2 * r) <= 2 * num + den < den * (2 * r + 2)
  {
    (2 * num + den) / (2 * den)
  }

  /** `Math.round((loaded * 100) / total)`. */
  function Percent(loaded: nat, total: nat): (r: nat)
    requires total > 0
    ensures loaded <= total ==> r <= 100
    ensures loaded == total ==> r == 100
    ensures loaded == 0 ==> r == 0
  {
    var r := Round(loaded * 100, total);
    PercentBounds(loaded, total, r);
    r
  }

  /** The bounds of `Percent`, from the rounding bracket `Round` guarantees. */
  lemma PercentBounds(loaded: nat, total: nat, r: nat)
    requires total > 0 && total * (2 * r) <= 2 * (loaded * 100) + total < total * (2 * r + 2)
    ensures loaded <= total ==> r <= 100
    ensures loaded == total ==> r == 100
    ensures loaded == 0 ==> r == 0
  {
    if loaded <= total && r > 100 {
      MulMono(total, 202, 2 * r);
    }
    if loaded == total && r < 100 {
      MulMono(total, 2 * r + 2, 200);
    }
    if loaded == 0 && r > 0 {
      MulMono(total, 2, 2 * r);
    }
  }

  lemma {:induction false} MulMono(a: nat, x: nat, y: nat)
    requires x <= y
    ensures a * x <= a * y
    decreases y - x
  {
    if x < y {
      MulMono(a, x, y - 1);
      assert a * y == a * (y - 1) + a;
    }
  }

  /** `file.type.startsWith('audio/')`. */
  predicate IsAudioType(mime: string) {
    "audio/" <= mime
  }

  /** The message a failed upload shows: the server's error when it sent a non-empty one,
      the error's own message otherwise. */
  function FailureMessage(serverError: Option<string>, message: string): (r: string)
    ensures |ProcessingErrorPrefix| <= |r| && r[..|ProcessingErrorPrefix|] == ProcessingErrorPrefix
    ensures serverError.Some? && serverError.value != [] ==> r[|ProcessingErrorPrefix|..] == serverError.value
    ensures !(serverError.Some? && serverError.value != []) ==> r[|ProcessingErrorPrefix|..] == message
  {
    ProcessingErrorPrefix + (if serverError.Some? && serverError.value != [] then serverError.value else message)
  }

  class Recorder {
    var isRecording: bool
    var isPaused: bool
    var audioBlob: Option<Blob>
    var audioUrl: Option<Url>
    var recordingTime: nat
    var isProcessing: bool
    var error: string
    var uploadProgress: nat
    /** `audioChunksRef.current`, pushed in place by `ondataavailable`. */
    var chunks: seq<Chunk>
    /** The state of `mediaRecorderRef.current`. */
    var recorder: RecorderState
    /** The object URLs given back to the browser with `URL.revokeObjectURL`, oldest first,
        by the handlers and by the clean-up of the `[audioUrl]` effect. */
    var revoked: seq<Url>
    /** The `audioUrl` the installed clean-up of the `[audioUrl]` effect has captured. */
    var cleanupUrl: Option<Url>

    /** The component's invariant: the flag `isRecording` is set exactly while the browser's
        recorder is running or paused, `isPaused` only while recording, and a blob always
        comes with its URL. */
    predicate Valid()
      reads this
    {
      (isRecording <==> recorder.Active())
      && (isPaused ==> isRecording)
      && (audioBlob.Some? <==> audioUrl.Some?)
    }

    /** What the component shows: the recording controls while recording, the review
        controls while a blob exists, the start and upload buttons otherwise. */
    function View(): (s: Screen)
      reads this
      ensures s.RecordingControls? <==> isRecording
      ensures s.ReviewControls? <==> !isRecording && audioBlob.Some?
      ensures s.RecordingControls? ==> s.paused == isPaused
      ensures s.ReviewControls? ==> s.processing == isProcessing
    {
      if isRecording then RecordingControls(isPaused)
      else if audioBlob.Some? then ReviewControls(isProcessing)
      else StartControls
    }

    /** The elapsed-time label under the recording controls. */
    function TimeLabel(): (r: string)
      reads this
      ensures AudioUtils.DecodeTime(r) == Some(recordingTime)
    {
      AudioUtils.DecodeFormat(recordingTime);
      AudioUtils.FormatRecordingTime(recordingTime)
    }

    /** The initial state. */
    constructor()
      ensures Valid()
      ensures !isRecording && !isPaused && audioBlob == None && audioUrl == None
      ensures recordingTime == 0 && !isProcessing && error == [] && uploadProgress == 0
      ensures chunks == [] && recorder == NoRecorder && revoked == [] && cleanupUrl == None
      ensures View() == StartControls
    {
      isRecording, isPaused := false, false;
      audioBlob, audioUrl := None, None;
      recordingTime, isProcessing := 0, false;
      error, uploadProgress := [], 0;
      chunks, recorder, revoked := [], NoRecorder, [];
      cleanupUrl := None;
    }

    /** `startRecording`: `micGranted` is whether the microphone could be opened. There is no
        guard against a second start while recording: the new recorder replaces the old one. */
    method StartRecording(micGranted: bool)
      requires Valid()
      modifies this
      ensures Valid()
      ensures micGranted ==>
        error == [] && chunks == [] && recorder == Recording && isRecording && recordingTime == 0
        && isPaused == old(isPaused)
      ensures !micGranted ==>
        error == MicrophoneError && chunks == old(chunks) && recorder == old(recorder)
        && isRecording == old(isRecording) && recordingTime == old(recordingTime) && isPaused == old(isPaused)
      ensures audioBlob == old(audioBlob) && audioUrl == old(audioUrl) && isProcessing == old(isProcessing)
      ensures uploadProgress == old(uploadProgress) && revoked == old(revoked)
      ensures cleanupUrl == old(cleanupUrl)
    {
      error := [];
      if !micGranted {
        error := MicrophoneError;
        return;
      }
      recorder := Recording;
      chunks := [];
      isRecording := true;
      recordingTime := 0;
    }

    /** `ondataavailable`: a chunk is kept only when it is not empty. */
    method DataAvailable(c: Chunk)
      requires Valid()
      modifies this
      ensures Valid()
      ensures chunks == old(chunks) + Kept([c])
      ensures isRecording == old(isRecording) && isPaused == old(isPaused) && audioBlob == old(audioBlob)
      ensures audioUrl == old(audioUrl) && recordingTime == old(recordingTime) && isProcessing == old(isProcessing)
      ensures error == old(error) && uploadProgress == old(uploadProgress) && recorder == old(recorder)
      ensures revoked == old(revoked) && cleanupUrl == old(cleanupUrl)
    {
      if c.size > 0 {
        chunks := chunks + [c];
      }
    }

    /** `onstop`: the blob is every kept chunk in order, typed `audio/wav`, played from the
        fresh object URL `url`. */
    method RecorderStopped(url: Url)
      requires Valid()
      modifies this
      ensures Valid()
      ensures audioBlob == Some(Blob(old(chunks), RecordingMime)) && audioUrl == Some(url)
      ensures isRecording == old(isRecording) && isPaused == old(isPaused) && chunks == old(chunks)
      ensures recordingTime == old(recordingTime) && isProcessing == old(isProcessing)
      ensures error == old(error) && uploadProgress == old(uploadProgress) && recorder == old(recorder)
      ensures revoked == old(revoked) && cleanupUrl == old(cleanupUrl)
    {
      audioBlob := Some(Blob(chunks, RecordingMime));
      audioUrl := Some(url);
    }

    /** One second of the interval timer, which runs only while recording and not paused. */
    method Tick()
      requires Valid()
      modifies this
      ensures Valid()
      ensures recordingTime == if old(isRecording) && !old(isPaused) then old(recordingTime) + 1 else old(recordingTime)
      ensures isRecording == old(isRecording) && isPaused == old(isPaused) && chunks == old(chunks)
      ensures audioBlob == old(audioBlob) && audioUrl == old(audioUrl) && isProcessing == old(isProcessing)
      ensures error == old(error) && uploadProgress == old(uploadProgress) && recorder == old(recorder)
      ensures revoked == old(revoked) && cleanupUrl == old(cleanupUrl)
    {
      if isRecording && !isPaused {
        recordingTime := recordingTime + 1;
      }
    }

    /** `stopRecording`: only a running or paused recorder is stopped. */
    method StopRecording()
      requires Valid()
      modifies this
      ensures Valid()
      ensures old(recorder).Active() ==> recorder == Inactive && !isRecording && !isPaused
      ensures !old(recorder).Active() ==> recorder == old(recorder) && isRecording == old(isRecording) && isPaused == old(isPaused)
      ensures chunks == old(chunks) && recordingTime == old(recordingTime)
      ensures audioBlob == old(audioBlob) && audioUrl == old(audioUrl) && isProcessing == old(isProcessing)
      ensures error == old(error) && uploadProgress == old(uploadProgress) && revoked == old(revoked)
      ensures cleanupUrl == old(cleanupUrl)
    {
      if recorder.Active() {
        recorder := Inactive;
        isRecording := false;
        isPaused := false;
      }
    }

    /** `togglePause`: resumes a paused recording or pauses a running one. Without a running
        or paused recorder the browser call throws before any state is set. */
    method TogglePause()
      requires Valid()
      modifies this
      ensures Valid()
      ensures old(recorder).Active() ==>
        isPaused == !old(isPaused) && recorder == (if old(isPaused) then Recording else Paused)
      ensures !old(recorder).Active() ==> isPaused == old(isPaused) && recorder == old(recorder)
      ensures isRecording == old(isRecording) && chunks == old(chunks) && recordingTime == old(recordingTime)
      ensures audioBlob == old(audioBlob) && audioUrl == old(audioUrl) && isProcessing == old(isProcessing)
      ensures error == old(error) && uploadProgress == old(uploadProgress) && revoked == old(revoked)
      ensures cleanupUrl == old(cleanupUrl)
    {
      if !recorder.Active() {
        return;
      }
      if isPaused {
        recorder := Recording;
        isPaused := false;
      } else {
        recorder := Paused;
        isPaused := true;
      }
    }

    /** `deleteRecording`: drops the blob and its URL, giving the URL back if there was one. */
    method DeleteRecording()
      requires Valid()
      modifies this
      ensures Valid()
      ensures audioBlob == None && audioUrl == None && recordingTime == 0
      ensures revoked == old(revoked) + (if old(audioUrl).Some? then [old(audioUrl).value] else [])
      ensures cleanupUrl == old(cleanupUrl)
      ensures isRecording == old(isRecording) && isPaused == old(isPaused) && chunks == old(chunks)
      ensures isProcessing == old(isProcessing) && error == old(error) && uploadProgress == old(uploadProgress)
      ensures recorder == old(recorder)
    {
      if audioUrl.Some? {
        revoked := revoked + [audioUrl.value];
      }
      audioBlob := None;
      audioUrl := None;
      recordingTime := 0;
    }

    /** The start of `processAudio`: without a blob nothing happens; otherwise the component
        enters the processing state and sends the blob with the fixed patient id and the
        visit date, which the browser's clock supplies as `YYYY-MM-DD` text. */
    method ProcessAudio(visitDate: string) returns (request: Option<Request>)
      requires Valid()
      modifies this
      ensures Valid()
      ensures old(audioBlob).None? ==> request == None && isProcessing == old(isProcessing) && error == old(error)
      ensures old(audioBlob).Some? ==>
        request == Some(Request(old(audioBlob).value, PatientId, visitDate)) && isProcessing && error == []
      ensures isRecording == old(isRecording) && isPaused == old(isPaused) && chunks == old(chunks)
      ensures audioBlob == old(audioBlob) && audioUrl == old(audioUrl) && recordingTime == old(recordingTime)
      ensures uploadProgress == old(uploadProgress) && recorder == old(recorder) && revoked == old(revoked)
      ensures cleanupUrl == old(cleanupUrl)
    {
      if audioBlob.None? {
        request := None;
      } else {
        request := Some(Request(audioBlob.value, PatientId, visitDate));
        isProcessing, error := true, [];
      }
    }

    /** `onUploadProgress`: the rounded percentage of bytes sent. */
    method UploadProgress(loaded: nat, total: nat)
      requires Valid() && total > 0
      modifies this
      ensures Valid()
      ensures uploadProgress == Percent(loaded, total)
      ensures loaded <= total ==> uploadProgress <= 100
      ensures isRecording == old(isRecording) && isPaused == old(isPaused) && chunks == old(chunks)
      ensures audioBlob == old(audioBlob) && audioUrl == old(audioUrl) && recordingTime == old(recordingTime)
      ensures isProcessing == old(isProcessing) && error == old(error) && recorder == old(recorder)
      ensures revoked == old(revoked) && cleanupUrl == old(cleanupUrl)
    {
      uploadProgress := Percent(loaded, total);
    }

    /** The end of `processAudio`: whatever the outcome the component leaves the processing
        state and keeps the blob; the reply is handed on (`onRecordingComplete`) only when its
        status is `'success'`, and otherwise an error is shown. */
    method FinishProcessing(outcome: Outcome) returns (completed: Option<Reply>)
      requires Valid()
      modifies this
      ensures Valid()
      ensures !isProcessing && uploadProgress == 0
      ensures completed.Some? <==> outcome.Answered? && outcome.data.Some? && outcome.data.value.status == Some("success")
      ensures completed.Some? ==> outcome.data == completed && error == old(error)
      ensures outcome.Answered? && completed.None? ==> error == RetryError
      ensures outcome.Failed? ==> error == FailureMessage(outcome.serverError, outcome.message)
      ensures isRecording == old(isRecording) && isPaused == old(isPaused) && chunks == old(chunks)
      ensures audioBlob == old(audioBlob) && audioUrl == old(audioUrl) && recordingTime == old(recordingTime)
      ensures recorder == old(recorder) && revoked == old(revoked)
      ensures cleanupUrl == old(cleanupUrl)
    {
      isProcessing := false;
      uploadProgress := 0;
      completed := None;
      match outcome {
        case Answered(data) =>
          if data.Some? && data.value.status == Some("success") {
            completed := data;
          } else {
            error := RetryError;
          }
        case Failed(serverError, message) =>
          error := FailureMessage(serverError, message);
      }
    }

    /** `handleFileUpload` with the file reader's `onload`/`onerror`: `url` is the object
        URL the browser would create for the new blob. An earlier error is not cleared. */
    method HandleFileUpload(file: Option<File>, read: ReadOutcome, url: Url)
      requires Valid()
      modifies this
      ensures Valid()
      ensures file.None? ==> audioBlob == old(audioBlob) && audioUrl == old(audioUrl) && error == old(error)
      ensures file.Some? && !IsAudioType(file.value.mime) ==>
        error == NotAudioError && audioBlob == old(audioBlob) && audioUrl == old(audioUrl)
      ensures file.Some? && IsAudioType(file.value.mime) && read == ReadError ==>
        error == ReadFileError && audioBlob == old(audioBlob) && audioUrl == old(audioUrl)
      ensures file.Some? && IsAudioType(file.value.mime) && read == Loaded ==>
        audioBlob == Some(Blob([file.value.contents], file.value.mime)) && audioUrl == Some(url) && error == old(error)
      ensures isRecording == old(isRecording) && isPaused == old(isPaused) && chunks == old(chunks)
      ensures recordingTime == old(recordingTime) && isProcessing == old(isProcessing)
      ensures uploadProgress == old(uploadProgress) && recorder == old(recorder) && revoked == old(revoked)
      ensures cleanupUrl == old(cleanupUrl)
    {
      if file.None? {
        return;
      }
      if !IsAudioType(file.value.mime) {
        error := NotAudioError;
        return;
      }
      match read {
        case Loaded =>
          audioBlob := Some(Blob([file.value.contents], file.value.mime));
          audioUrl := Some(url);
        case ReadError =>
          error := ReadFileError;
      }
    }
    /** React's commit of the `[audioUrl]` effect after a render. When `audioUrl` has changed
        since the effect was last installed, the clean-up installed then runs first: it
        revokes the URL it captured (a second time when `deleteRecording` already did) and
        stops a recorder still running or paused. The effect is then installed over the
        current URL. */
    method AudioUrlEffect()
      requires Valid()
      modifies this
      ensures cleanupUrl == audioUrl
      ensures revoked == old(revoked) +
        (if old(cleanupUrl) != old(audioUrl) && old(cleanupUrl).Some? then [old(cleanupUrl).value] else [])
      ensures recorder == if old(cleanupUrl) != old(audioUrl) && old(recorder).Active() then Inactive else old(recorder)
      ensures !(old(cleanupUrl) != old(audioUrl) && old(recorder).Active()) ==> Valid()
      ensures isRecording == old(isRecording) && isPaused == old(isPaused) && chunks == old(chunks)
      ensures audioBlob == old(audioBlob) && audioUrl == old(audioUrl) && recordingTime == old(recordingTime)
      ensures isProcessing == old(isProcessing) && error == old(error) && uploadProgress == old(uploadProgress)
    {
      if cleanupUrl != audioUrl {
        CleanUp();
        cleanupUrl := audioUrl;
      }
    }

    /** The unmount: the installed clean-up runs one last time. */
    method Unmount()
      modifies this
      ensures revoked == old(revoked) + (if old(cleanupUrl).Some? then [old(cleanupUrl).value] else [])
      ensures recorder == if old(recorder).Active() then Inactive else old(recorder)
      ensures cleanupUrl == old(cleanupUrl)
      ensures isRecording == old(isRecording) && isPaused == old(isPaused) && chunks == old(chunks)
      ensures audioBlob == old(audioBlob) && audioUrl == old(audioUrl) && recordingTime == old(recordingTime)
      ensures isProcessing == old(isProcessing) && error == old(error) && uploadProgress == old(uploadProgress)
    {
      CleanUp();
    }

    /** The clean-up closure of the `[audioUrl]` effect over the URL it captured. The
        stream's tracks and the interval timer it also stops are not part of this state. */
    method CleanUp()
      modifies this
      ensures revoked == old(revoked) + (if cleanupUrl.Some? then [cleanupUrl.value] else [])
      ensures recorder == if old(recorder).Active() then Inactive else old(recorder)
      ensures cleanupUrl == old(cleanupUrl)
      ensures isRecording == old(isRecording) && isPaused == old(isPaused) && chunks == old(chunks)
      ensures audioBlob == old(audioBlob) && audioUrl == old(audioUrl) && recordingTime == old(recordingTime)
      ensures isProcessing == old(isProcessing) && error == old(error) && uploadProgress == old(uploadProgress)
    {
      if recorder.Active() {
        recorder := Inactive;
      }
      if cleanupUrl.Some? {
        revoked := revoked + [cleanupUrl.value];
      }
    }
  }

  /** Deleting a recording revokes its URL twice: once in `deleteRecording`, and once more
      when the clean-up of the `[audioUrl]` effect that captured it runs after the URL has
      been set to `null`. */
  method DeleteRevokesTwice(url: Url) returns (rec: Recorder)
    ensures rec.Valid() && rec.audioUrl == None && rec.cleanupUrl == None
    ensures rec.revoked == [url, url]
  {
    rec := new Recorder();
    rec.StartRecording(true);
    rec.StopRecording();
    rec.RecorderStopped(url);
    rec.AudioUrlEffect();
    rec.DeleteRecording();
    rec.AudioUrlEffect();
  }

  /** A recording session from the start: chunks arrive, the user stops, the recorder
      reports its stop. The blob holds exactly the non-empty chunks, in arrival order. */
  method RecordSession(events: seq<Chunk>, url: Url) returns (rec: Recorder)
    ensures rec.Valid() && !rec.isRecording
    ensures rec.audioBlob == Some(Blob(Kept(events), RecordingMime)) && rec.audioUrl == Some(url)
    ensures rec.error == [] && rec.recordingTime == 0
  {
    rec := new Recorder();
    rec.StartRecording(true);
    var i := 0;
    while i < |events|
      invariant 0 <= i <= |events|
      invariant rec.Valid() && rec.isRecording && rec.recorder == Recording
      invariant rec.chunks == Kept(events[..i])
      invariant rec.error == [] && rec.recordingTime == 0
    {
      rec.DataAvailable(events[i]);
      assert events[..i + 1][..i] == events[..i];
      i := i + 1;
    }
    assert events[..i] == events;
    rec.StopRecording();
    rec.RecorderStopped(url);
  }

  /** The elapsed time counts exactly the ticks received while running and not paused. */
  method TimedSession(ticks: nat, pausedTicks: nat) returns (rec: Recorder)
    ensures rec.Valid() && rec.recordingTime == ticks && rec.isRecording && rec.isPaused
  {
    rec := new Recorder();
    rec.StartRecording(true);
    var i := 0;
    while i < ticks
      invariant 0 <= i <= ticks
      invariant rec.Valid() && rec.isRecording && !rec.isPaused && rec.recorder == Recording
      invariant rec.recordingTime == i
    {
      rec.Tick();
      i := i + 1;
    }
    rec.TogglePause();
    var j := 0;
    while j < pausedTicks
      invariant rec.Valid() && rec.isRecording && rec.isPaused
      invariant rec.recordingTime == ticks
    {
      rec.Tick();
      j := j + 1;
    }
  }
}
