# PatientVisit core in Dafny

PatientVisit records a doctor-patient conversation in the browser and sends it to a back end. The back end transcribes it and writes a structured visit summary. The browser then shows that summary again, split into a prose tab and four clinical lists. This project models the parts of that system that are plain logic, and proves what they promise:

- **The summary text pipeline of the back end** (`backend/utils/summarization.py`):
  - `preprocess_transcript` drops filler words and normalises spacing.
  - `extract_medical_terms` sorts entities into seven fixed categories.
  - `structure_summary` lays out the summary text.
  - the length bounds and the error fallback of `generate_medical_summary`.
  - the extractive fallback summariser.
- **The summary view** (`frontend/src/components/SummaryDisplay.js`):
  - the section parser and the summary-tab extraction.
  - the download name and the loading/error/empty dispatch.
  - **The round trip.** Parsing what `structure_summary` writes gives back the diagnoses, symptoms, medications and procedures lists, and the summary prose. This holds whenever the prose and the items cannot be mistaken for headings or bullets.
- **The recorder component** (`frontend/src/components/AudioRecorder.js`) as a state machine. Browser objects are opaque handles and browser callbacks are events. The time label comes from `frontend/src/utils/audioUtils.js`.
- **The summaries page search** (`frontend/src/pages/Summaries.js`).
- **The upload checks and the stream chunk selection** of the web service (`backend/api/app.py`).
- **The three-step visit wizard** (`frontend/src/pages/RecordVisit.js`).
- **The settings page record** (`frontend/src/pages/Settings.js`).

Files and modules:

- **Shared helpers:**
  - `wrappers.dfy` (`Wrappers`): `Option` and `Result`.
  - `text.dfy` (`Text`): ASCII whitespace, case and word characters for JavaScript and Python, trimming, substring search, join, split and Python's `split()`.
  - `numerals.dfy` (`Numerals`): decimal strings, `padStart`, ISO dates.
- **Back-end summary pipeline:**
  - `preprocess.dfy` (`Preprocess`).
  - `medical_terms.dfy` (`MedicalTerms`).
  - `structure.dfy` (`SummaryStructure`).
  - `summarization.dfy` (`Summarization`).
- **Summary view:**
  - `summary_display.dfy` (`SummaryDisplay`).
  - `round_trip.dfy` (`SummaryRoundTrip`).
- **Recorder:**
  - `audio_utils.dfy` (`AudioUtils`).
  - `audio_recorder.dfy` (`AudioRecorder`).
- **Pages and web service:**
  - `summaries.dfy` (`Summaries`).
  - `app.dfy` (`App`).
  - `record_visit.dfy` (`RecordVisit`).
  - `settings.dfy` (`Settings`).

Code that changes state step by step is imperative Dafny:

- `PreprocessTranscript` and `ExtractMedicalTerms` are loops proved against specification functions.
- `StructureSummary` is a method that appends the sections one after another, as the source does, with no loop. It is proved equal to the line-level layout function.
- The recorder, the wizard, the search box and the settings page are classes whose methods state the whole new state.

Three behaviours of the code worth noting:

- An empty recording still yields a blob, which is truthy, so "Analyze Recording" is offered for it.
- `startRecording` has no guard against being called twice. Only the UI hides its button.
- The summary tab stops at a second `SUMMARY:` as well as at `KEY MEDICAL INFORMATION:`, because `split` cuts at every occurrence.

## Model

| member | source | states |
|---|---|---|
| Text.Trim | backend/utils/summarization.py:74 | `strip()`/`trim()`: the result has no leading or trailing space (Python or JS set) and is a slice of the input |
| Text.Words | backend/utils/summarization.py:46 | Python `split()`: every word is non-empty and contains no whitespace |
| Text.WordsNone | backend/utils/summarization.py:46 | there are no words exactly when the text is all whitespace |
| Text.WordsEmpty | backend/utils/summarization.py:46 | `''.split()` is `[]` |
| Text.WordsSkipSpace | backend/utils/summarization.py:46 | any leading whitespace character, including tabs and newlines, adds no word |
| Text.WordsCons | backend/utils/summarization.py:46 | a maximal run of non-whitespace at the front is the first word, followed by the words of the rest. With `WordsEmpty` and `WordsSkipSpace` these equations fix `split()` on every text |
| Text.WordsOfJoin | backend/utils/summarization.py:48 | re-splitting words joined by single spaces gives the same words |
| Text.SplitFree | backend/utils/summarization.py:43 | no piece of `split(c)` contains `c` |
| Text.JoinSplit | backend/utils/summarization.py:43-44 | joining the pieces of `split(c)` with `c` gives the text back |
| Preprocess.RemoveWord | backend/utils/summarization.py:66 | removing one filler (`\bfiller\b`, case-insensitive) never lengthens the text |
| Preprocess.WholeWordsOnly | backend/utils/summarization.py:66 | a filler is only removed as a whole word: a single word that is not the filler (ignoring case) is left unchanged, even when the filler occurs inside it |
| Preprocess.FillerAloneRemoved | backend/utils/summarization.py:66 | a text that is exactly a filler (in any letter case) is removed completely |
| Preprocess.CollapseSpace | backend/utils/summarization.py:69 | every whitespace run becomes one space: no two spaces in a row, and every space left is `' '` |
| Preprocess.FixPunctNoSpaceBeforePunct | backend/utils/summarization.py:72 | after the punctuation fix no whitespace precedes any of `. , ; : ! ?` |
| Preprocess.FixPunctNoDoubleSpace | backend/utils/summarization.py:72 | the punctuation fix keeps a collapsed text free of double spaces |
| Preprocess.PreprocessSpec | backend/utils/summarization.py:53-74 | the normalised transcript is stripped, has no double whitespace and no whitespace before punctuation |
| Preprocess.PreprocessTranscript | backend/utils/summarization.py:64-74 | the loop over the fillers followed by the two substitutions and the strip computes `PreprocessSpec` |
| Preprocess.UmbrellaSurvives | backend/utils/summarization.py:64-66 | `"umbrella"` survives: `um` inside a word is not a filler |
| Preprocess.NonFillerWordSurvives | backend/utils/summarization.py:64-74 | a single word that contains no filler comes out unchanged |
| Preprocess.YouKnowRemovedOnce | backend/utils/summarization.py:66 | one substitution pass removes only the inner `you know` of `you you know know` |
| Preprocess.NotIdempotent | backend/utils/summarization.py:53-74 | `"you you know know"` becomes `"you know"`, which would itself become empty: the function is not idempotent |
| MedicalTerms.CategoryOf | backend/utils/summarization.py:97-111 | PROCEDURE and TREATMENT go to procedures; every label outside the table goes to other |
| MedicalTerms.Dedup | backend/utils/summarization.py:112-113 | the de-duplicated list has exactly the same texts as its input, each once |
| MedicalTerms.TermsMembership | backend/utils/summarization.py:110-113 | a text is in a category's list iff some entity with that text has a label mapping to the category |
| MedicalTerms.TermsOrder | backend/utils/summarization.py:110-113 | within each list, texts keep the order of their first occurrence |
| MedicalTerms.TermsOfLists | backend/utils/summarization.py:86-94 | the term dictionary has exactly the seven category keys, each holding that category's de-duplicated list |
| MedicalTerms.ExtractMedicalTerms | backend/utils/summarization.py:76-115 | the appending loop returns exactly the seven keys, each with the category's de-duplicated texts |
| SummaryStructure.BlockLines | backend/utils/summarization.py:141-164 | a block is absent for an empty list; otherwise it is the heading, one `"  - " + item` line per item, and a blank line |
| SummaryStructure.StructureSummary | backend/utils/summarization.py:117-170 | the appended sections joined by newlines are the head lines, the five blocks in fixed order, and the tail |
| SummaryStructure.RenderedStart | backend/utils/summarization.py:128-136 | output starts with the title, a newline, the 25-`=` rule, a blank line, `SUMMARY:` and the stripped summary text |
| SummaryStructure.RenderedEnd | backend/utils/summarization.py:167-170 | output ends with a newline, the rule, a newline and the disclaimer |
| SummaryStructure.RuleShape | backend/utils/summarization.py:130 | the rule is exactly 25 `=` characters |
| SummaryStructure.IgnoresUnlisted | backend/utils/summarization.py:141-164 | measurements and other never change the output |
| Summarization.ExtractiveBound | backend/utils/summarization.py:39-49 | the fallback summary has at most `max_length` words. Within the limit it is the first five sentences verbatim. Beyond it, it is exactly their first `max_length` words, joined by single spaces (`r == Join(Words(r), " ")`) |
| Summarization.FirstSentencesPrefix | backend/utils/summarization.py:43-44 | the summary is a prefix of the text followed by one `.`. For a text of more than five sentences, the prefix ends just before the text's fifth `.`, and it splits on `.` into exactly the text's first five sentences |
| Summarization.FewSentences | backend/utils/summarization.py:43-44 | a text with at most five sentences is returned whole with `.` appended |
| Summarization.ExtractiveZero | backend/utils/summarization.py:46-48 | a `max_length` of 0 gives the empty summary |
| Summarization.MaxLengthOr | backend/utils/summarization.py:42 | `max_length` defaults to 100 |
| Summarization.SummaryLengths | backend/utils/summarization.py:203-204 | `max_length` is the largest value up to 1024 and half the word count; `min_length` is the largest value up to 50 and half of `max_length`, so `0 <= min <= max <= 1024` |
| Summarization.ShortTranscriptLengths | backend/utils/summarization.py:203-204 | fewer than two words give both lengths 0 |
| Summarization.ErrorText | backend/utils/summarization.py:220-222 | the failure result is `Error generating summary: ` followed by the message |
| Summarization.GenerateMedicalSummary | backend/utils/summarization.py:172-222 | the pipeline computes the specification: preprocess, entities, terms, lengths, summariser, layout, or the error text |
| Summarization.SummarizePreprocessed | backend/utils/summarization.py:188-218 | after normalisation, either the error text of the failing stage or the layout of the summary and the entity lists |
| Summarization.Outcome | backend/utils/summarization.py:183-222 | the pipeline never fails: it returns the error text exactly when a stage fails, and the layout otherwise |
| Summarization.RenderedStartsWithTitle | backend/utils/summarization.py:128-131 | a successful result starts with the title and so cannot be mistaken for an error text |
| Summarization.PipelineRoundTrip | backend/utils/summarization.py:141-159 | parsing a produced summary gives back the four categories' de-duplicated entity lists and the stripped prose |
| Summarization.ShortTranscriptNoSummary | backend/utils/summarization.py:203-216 | with the fallback summariser a transcript of under two words yields an empty prose, shown as `No summary available` |
| SummaryDisplay.BodyEnd | frontend/src/components/SummaryDisplay.js:87-90 | the lazy body ends at the first `\n\n`, or at a `\n` that is the last character, and nowhere earlier |
| SummaryDisplay.SectionAbsent | frontend/src/components/SummaryDisplay.js:87-92 | a header that does not occur gives no match |
| SummaryDisplay.SectionUnterminated | frontend/src/components/SummaryDisplay.js:87-92 | a header with neither a later `\n\n` nor a final `\n` gives no match (no `m` flag) |
| SummaryDisplay.SectionAtFirst | frontend/src/components/SummaryDisplay.js:87-90 | the match is at the first occurrence of the header and the body is the shortest one |
| SummaryDisplay.SplitOnDash | frontend/src/components/SummaryDisplay.js:93 | `split(/\s*-\s*/)`: no piece contains `-`. On a trimmed text, the pieces are the `-`-separated fields, in order, each trimmed |
| SummaryDisplay.Items | frontend/src/components/SummaryDisplay.js:93-102 | the items are the `-`-separated fields of the trimmed body, in order of appearance, each trimmed, with the empty ones dropped. So every item is non-empty, trimmed and free of `-` |
| SummaryDisplay.ParseSections | frontend/src/components/SummaryDisplay.js:79-104 | with an empty or missing summary all four lists are empty; otherwise each list is the items of its section |
| SummaryDisplay.SummaryTab | frontend/src/components/SummaryDisplay.js:150 | the tab is never empty and always trimmed. Without a summary or without `SUMMARY:` in it, the tab shows the placeholder |
| SummaryDisplay.SecondPieceFields | frontend/src/components/SummaryDisplay.js:150 | `split(sep)[1]` is the text from the end of the first separator up to the next separator found after it, or to the end |
| SummaryDisplay.FirstPieceFields | frontend/src/components/SummaryDisplay.js:150 | `split(sep)[0]` is the text before the first separator, or all of it |
| SummaryDisplay.SummaryTabFields | frontend/src/components/SummaryDisplay.js:150 | take `SUMMARY:` first at `p`, its next occurrence (or the end) at `e`, and `KEY MEDICAL INFORMATION:` first at `k` within the text between them (or that text's end). The tab shows that text up to `k`, trimmed, or the placeholder when that is empty |
| SummaryDisplay.TranscriptionTab | frontend/src/components/SummaryDisplay.js:268 | the transcription, or `No transcription available` when it is missing or empty |
| SummaryDisplay.DownloadNameFields | frontend/src/components/SummaryDisplay.js:120 | the download name reads back as `patient_summary_`, the id (or `unknown`), `_`, the date `YYYY-MM-DD`, `.txt` |
| SummaryDisplay.RenderDispatch | frontend/src/components/SummaryDisplay.js:45-76 | loading wins over an error, an error over a missing summary, and parsing happens only when neither is set and a summary exists |
| SummaryRoundTrip.DiagnosesRoundTrip | frontend/src/components/SummaryDisplay.js:87 | the diagnoses section of a produced summary parses back to the diagnoses list |
| SummaryRoundTrip.SymptomsRoundTrip | frontend/src/components/SummaryDisplay.js:88 | the symptoms section parses back to the symptoms list |
| SummaryRoundTrip.MedicationsRoundTrip | frontend/src/components/SummaryDisplay.js:89 | the medications section parses back to the medications list |
| SummaryRoundTrip.ProceduresRoundTrip | frontend/src/components/SummaryDisplay.js:90 | the procedures section parses back to the procedures list |
| SummaryRoundTrip.SummaryTabOf | frontend/src/components/SummaryDisplay.js:150 | for a text laid out as title, rule, `SUMMARY:`, a trimmed prose and `KEY MEDICAL INFORMATION:`, the tab shows the prose, or the placeholder when the prose is empty |
| SummaryRoundTrip.RoundTrip | frontend/src/components/SummaryDisplay.js:86-104 | for items that are trimmed, non-empty and free of `-`, newlines and headings, parsing `structure_summary`'s output returns the four lists (empty ones stay empty), and the tab shows the stripped prose or the placeholder |
| AudioUtils.TimeFields | frontend/src/utils/audioUtils.js:65-69 | the minutes field holds `n div 60` in at least two digits; the seconds field holds `n mod 60` in exactly two |
| AudioUtils.DecodeFormat | frontend/src/utils/audioUtils.js:66-68 | reading the label back gives `mins*60 + secs == n` |
| AudioUtils.FormatInjective | frontend/src/utils/audioUtils.js:66-68 | distinct inputs give distinct labels |
| AudioUtils.ShortLabel | frontend/src/utils/audioUtils.js:66-68 | below 6000 seconds the label has length 5 with `:` at index 2 |
| AudioUtils.LongLabel | frontend/src/utils/audioUtils.js:68 | from 6000 seconds on the minutes field widens to three or more digits |
| AudioRecorder.Recorder.TimeLabel | frontend/src/components/AudioRecorder.js:98-102 | the recorder's own `formatTime` is the same label, and it reads back as the elapsed seconds |
| AudioRecorder.Recorder.View | frontend/src/components/AudioRecorder.js:263-364 | recording controls while recording, the review controls while a blob exists, the start and upload buttons otherwise |
| AudioRecorder.Recorder.constructor | frontend/src/components/AudioRecorder.js:24-32 | the initial state: idle, no blob, time 0, no error, no recorder |
| AudioRecorder.Recorder.StartRecording | frontend/src/components/AudioRecorder.js:104-137 | success empties the chunks, starts the recorder, sets recording and time 0, and clears the error. Microphone failure only sets the permission message. No re-entry guard |
| AudioRecorder.Kept | frontend/src/components/AudioRecorder.js:113-117 | exactly the chunks of non-zero size are kept |
| AudioRecorder.KeptAppend | frontend/src/components/AudioRecorder.js:113-117 | the chunks kept from two stretches of events are those of the first, then those of the second, so arrival order and repeats are kept |
| AudioRecorder.Recorder.DataAvailable | frontend/src/components/AudioRecorder.js:113-117 | a chunk is appended in place only when its size is positive; nothing else changes |
| AudioRecorder.Recorder.RecorderStopped | frontend/src/components/AudioRecorder.js:119-128 | the blob is all kept chunks in order, typed `audio/wav`, with a fresh URL |
| AudioRecorder.RecordSession | frontend/src/components/AudioRecorder.js:104-145 | after start, any chunk events and stop, the blob holds exactly the non-empty chunks in arrival order |
| AudioRecorder.Recorder.Tick | frontend/src/components/AudioRecorder.js:65-72 | the time grows by exactly 1 per tick, and only while recording and not paused |
| AudioRecorder.TimedSession | frontend/src/components/AudioRecorder.js:65-72 | ticks while paused are not counted |
| AudioRecorder.Recorder.StopRecording | frontend/src/components/AudioRecorder.js:139-145 | a no-op unless the recorder is running or paused; otherwise it is stopped and both flags are cleared |
| AudioRecorder.Recorder.TogglePause | frontend/src/components/AudioRecorder.js:147-157 | flips `isPaused` and the recorder state; chunks and time untouched |
| AudioRecorder.Recorder.DeleteRecording | frontend/src/components/AudioRecorder.js:169-177 | blob and URL cleared and time 0. The handler revokes the URL only if there was one; the effect's clean-up revokes it again afterwards (`AudioUrlEffect`). Error and chunks are untouched |
| AudioRecorder.Recorder.AudioUrlEffect | frontend/src/components/AudioRecorder.js:44-62 | after a render that changed `audioUrl`, the clean-up installed over the previous URL revokes that URL, even one a handler already revoked, and stops a recorder still running or paused. Then the effect captures the current URL. Without such a stop the component's invariant is kept |
| AudioRecorder.Recorder.Unmount | frontend/src/components/AudioRecorder.js:43-62 | on unmount the installed clean-up revokes the URL it captured and stops a running or paused recorder |
| AudioRecorder.Recorder.CleanUp | frontend/src/components/AudioRecorder.js:45-61 | the clean-up closure revokes its captured URL, if any, and stops an active recorder, and changes nothing else |
| AudioRecorder.DeleteRevokesTwice | frontend/src/components/AudioRecorder.js:44-62 | after recording, deleting the recording revokes its URL twice: once in `deleteRecording`, then again in the effect's clean-up once the URL is `null` |
| AudioRecorder.Recorder.ProcessAudio | frontend/src/components/AudioRecorder.js:179-193 | nothing without a blob; otherwise processing starts, the error is cleared and the blob is sent with patient id `DEMO123` and the visit date |
| AudioRecorder.Round | frontend/src/components/AudioRecorder.js:196 | `Math.round` of a non-negative quotient: the nearest integer, halves rounded up |
| AudioRecorder.Percent | frontend/src/components/AudioRecorder.js:195-198 | the progress lies in 0..100 when `loaded <= total`, is 0 at the start and 100 at the end |
| AudioRecorder.Recorder.UploadProgress | frontend/src/components/AudioRecorder.js:195-198 | the progress field is set to the rounded percentage |
| AudioRecorder.FailureMessage | frontend/src/components/AudioRecorder.js:211 | the failure text is the prefix and the server's error, or the error's message when the server sent none |
| AudioRecorder.Recorder.FinishProcessing | frontend/src/components/AudioRecorder.js:200-214 | every outcome ends processing with progress 0 and keeps the blob. The reply is handed on only when its status is `success`. Otherwise the matching error is shown |
| AudioRecorder.Recorder.HandleFileUpload | frontend/src/components/AudioRecorder.js:217-248 | no file: nothing. A non-`audio/` type: only the error. A read error: its message. Otherwise the blob with the file's type and a new URL, with an earlier error not cleared |
| Summaries.Filter | frontend/src/pages/Summaries.js:70-75 | a card is kept iff the lower-cased term occurs in its lower-cased patient id, patient name, physician or preview |
| Summaries.FilterSubsequence | frontend/src/pages/Summaries.js:70 | the result is an order-preserving subsequence of the cards |
| Summaries.EmptyTermKeepsAll | frontend/src/pages/Summaries.js:70-75 | the empty term keeps every card |
| Summaries.CaseInsensitive | frontend/src/pages/Summaries.js:71-74 | terms equal up to letter case give the same result |
| Summaries.Monotone | frontend/src/pages/Summaries.js:71-74 | if `t` occurs in `u`, every card found by `u` is found by `t` |
| Summaries.UnsearchedFields | frontend/src/pages/Summaries.js:71-74 | diagnoses, medications, dates and ids never affect the result |
| Summaries.SearchPage.SetSearchTerm | frontend/src/pages/Summaries.js:111 | typing stores the term, and the visible cards become `Filter(summaries, term)` |
| Summaries.SearchPage.ClearSearch | frontend/src/pages/Summaries.js:86-88 | clearing sets the term to empty and every card is shown again |
| App.AllowedFileMeans | backend/api/app.py:47-48 | a name is accepted iff it has a `.` and the lower-cased text after its last `.` is `wav`, `mp3`, `ogg` or `m4a` |
| App.DoubleExtensionRefused | backend/api/app.py:48 | `a.wav.txt` is refused: only the last extension counts |
| App.LastExtensionAccepted | backend/api/app.py:48 | `a.txt.wav` and `.wav` are accepted |
| App.UpperCaseAccepted | backend/api/app.py:37-48 | `x.WAV` is accepted and a name without `.` is not |
| App.ValidateUpload | backend/api/app.py:66-74 | an empty name is refused before the extension is looked at. A missing visit date becomes today's `YYYY-MM-DD` |
| App.RejectionStatus | backend/api/app.py:67-71 | both upload rejections, no selected file and a file type not allowed, answer 400 |
| App.ChunkFiles | backend/api/app.py:181 | exactly the names starting with `chunk_`, each as often as listed, in sorted order |
| App.ListingOrderIrrelevant | backend/api/app.py:181 | the directory listing's order does not change which files are joined, nor their order |
| App.StreamStatus | backend/api/app.py:173-177 | a missing session id gives 400, an unknown session 404, and an error inside the handler 500, each as an if-and-only-if |
| App.SelectChunks | backend/api/app.py:170-184 | no session id: 400. Unknown session: 404. No chunk files: the error raised inside the `try` becomes 500. Otherwise the sorted chunk files |
| RecordVisit.Wizard.constructor | frontend/src/pages/RecordVisit.js:14-21 | step 0, empty patient fields, visit date today's ISO date; Back disabled and Next disabled |
| RecordVisit.Wizard.Next | frontend/src/pages/RecordVisit.js:26-28 | adds exactly 1, with no bound |
| RecordVisit.Wizard.Back | frontend/src/pages/RecordVisit.js:30-32 | subtracts exactly 1, with no bound |
| RecordVisit.Wizard.RecordingComplete | frontend/src/pages/RecordVisit.js:34-37 | stores the reply and jumps straight to step 2 |
| RecordVisit.Wizard.SetPatient | frontend/src/pages/RecordVisit.js:42 | the form's `setPatient` replaces the patient and leaves the step and the reply as they are (the loading flag and the error never change) |
| RecordVisit.Wizard.RenderStepContent | frontend/src/pages/RecordVisit.js:39-50 | 0, 1, 2 map to the form, the recorder and the summary; anything else to `Unknown step` |
| RecordVisit.Wizard.PressBack | frontend/src/pages/RecordVisit.js:78-81 | the Back button is disabled at step 0 and otherwise steps back, so the step stays in 0..2 |
| RecordVisit.Wizard.PressNext | frontend/src/pages/RecordVisit.js:97-104 | Next is shown only at step 0 and is disabled while the patient id is empty |
| RecordVisit.Run | frontend/src/pages/RecordVisit.js:26-104 | whatever the user does through the controls, the step stays in 0..2 and never renders `Unknown step` |
| Settings.NewValue | frontend/src/pages/Settings.js:55-56 | audio and privacy handlers store `checked` for a checkbox and `value` otherwise; processing and api always store `value` |
| Settings.Update | frontend/src/pages/Settings.js:58-64 | the spread replaces exactly the named field of one group (adding it if new), leaving all other fields and groups unchanged |
| Settings.UpdateAddsField | frontend/src/pages/Settings.js:58-64 | a name not yet in the group adds one field instead of failing |
| Settings.UpdateOverwrites | frontend/src/pages/Settings.js:58-64 | of two changes to one field, the last one stays |
| Settings.SettingsPage.constructor | frontend/src/pages/Settings.js:29-52 | the defaults of lines 29-50, with `saved` false |
| Settings.SettingsPage.HandleAudioSettingsChange | frontend/src/pages/Settings.js:54-67 | replaces one audio field with the checkbox state or the value, storing slider values unchecked, and clears `saved` |
| Settings.SettingsPage.HandleProcessingSettingsChange | frontend/src/pages/Settings.js:69-81 | replaces one processing field with the value and clears `saved` |
| Settings.SettingsPage.HandlePrivacySettingsChange | frontend/src/pages/Settings.js:83-96 | replaces one privacy field with the checkbox state or the value, storing `autoDeleteAfter` as received, and clears `saved` |
| Settings.SettingsPage.HandleApiSettingsChange | frontend/src/pages/Settings.js:98-110 | replaces one api field with the value and clears `saved` |
| Settings.SettingsPage.HandleSaveSettings | frontend/src/pages/Settings.js:112-116 | sets `saved` and leaves the settings as they are |
| Settings.SettingsPage.SavedTimerFired | frontend/src/pages/Settings.js:117-119 | the timer after a save clears `saved` and leaves the settings as they are |

## Left out

- Browser APIs are opaque handles or event parameters. This covers `getUserMedia`, `MediaRecorder`, `FileReader`, `Audio`, object URLs, the clipboard, download anchors and timers. Playback (`playAudio`/`pauseAudio`, `isPlaying`) is not modelled. The clean-up of the `[audioUrl]` effect, which runs on every change of `audioUrl` and on unmount, is modelled for the URL it revokes and the recorder it stops. Its stopping of the stream's tracks and of the interval timer is not modelled, because those are opaque browser objects.
- Each handler is one atomic step. The late duration probe of an uploaded file (it sets the time when metadata arrives) and the interleaving of a second recorder started while one runs are not modelled.
- AudioRecorder.Recorder.UploadProgress: requires `total > 0`. A zero total makes the source store `NaN` or `Infinity`, which has no integer counterpart here.
- AudioRecorder.Recorder.TogglePause: without a running or paused recorder the source's call throws before any state changes. The model leaves the state unchanged and does not model the exception.
- AudioRecorder.Recorder.ProcessAudio: the visit date text, which the browser derives from its clock, is a parameter. Its `YYYY-MM-DD` format is modelled by `Numerals.IsoDate` where the wizard and the web service use it. The HTTP request itself is not modelled; its outcome is the parameter of `FinishProcessing`.
- The language models are parameters: the entity recogniser and the summarisation model. Their loading, the network probe and the spaCy/transformers calls are not part of this model. An exception anywhere in the pipeline is modelled as an `Err` from those parameters.
- Python dictionaries are keyed by a `Category` datatype instead of strings, and their insertion order is not modelled.
- App.ValidateUpload: requires a year of at least 1000 for the default date. `strftime('%Y')` does not pad smaller years to four digits.
- In `backend/api/app.py`, the temporary files, Whisper transcription, soundfile, float audio concatenation, the 0.5-second threshold and storage are not modelled. The same goes for `MAX_UPLOAD_SIZE`, which is declared but never enforced.
- Floating-point signal processing (`backend/utils/audio_processing.py`) is not part of this model. Nor is the encryption and audit code in `backend/utils/hipaa_compliance.py`, which relies on a foreign cryptography library.
- `PatientForm.js` is reduced to the wizard's `SetPatient`. Its only logic is the one-line field update.
- Only ASCII letters are case-folded, and whitespace is the ASCII whitespace of each language.
- Preprocess.RemoveWord: the word characters that decide `\b` are ASCII letters, digits and `_`. Python's `\w` on a `str` also counts non-ASCII letters and digits. So a filler directly next to such a character, as `um` in `umé`, is removed by the model but kept by the source. The same holds for `PreprocessTranscript` and `PreprocessSpec`, which use it.
