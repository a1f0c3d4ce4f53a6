# Longform transcriber: window arithmetic, speaker reconciliation and rendering

This project models the core of a long-form audio transcriber in Dafny. The transcriber cuts a long recording into overlapping windows, and sends each window to a speech-to-text provider that has speaker diarisation. It then reconciles the per-window transcripts into one timeline with speaker labels. The model covers five parts:

- **Windower** (`windower.dfy`, `audio.dfy`, `audio_alternative.dfy`, `config.dfy`). This is the `split_audio` arithmetic of both the pydub and the ffmpeg variants. A total duration, a window length and an overlap, all in integer milliseconds, give indexed `(start_time, end_time)` windows.
- **Word grouping** (`word_grouping.dfy`). This is the diarised branch of `transcribe_segment_with_requests`. It is a left-to-right fold over the provider's decoded `words` list into one utterance per run of one speaker id. `Runs` is an independent reference description of the same result, and the two are proved equal.
- **Reconciliation and merge** (`speaker_map.dfy`, `merge.dfy`). This is `merge_transcriptions`, in four steps:
  - lift window-local times to absolute time and flatten;
  - stably sort by start;
  - map every (window, local speaker) pair to one of window 0's speakers by sorted position;
  - apply the display labels, then make a single pass that merges neighbours of one speaker.

  Every exception inside the function becomes the empty transcript.
- **Job record** (`job.dfy`). The global `current_job` dictionary is an immutable record. The request handlers `transcribe` and `process_transcript`, and the background steps `process_audio` and `process_transcript_with_labels`, are pure transitions of that record.
- **Browser helpers** (`render.dfy`, `labeling.dfy`). These cover:
  - speaker-label normalisation and the HTML of `formatTranscript`;
  - the plain-text export shared by the copy and download buttons;
  - `truncateText`;
  - the labelling panel: example texts, numeric speaker order, colours and default labels;
  - the collection of the labels back from the panel.

Shared pieces live in their own modules:

- `wrappers.dfy`: `Option` and `Result`.
- `text.dfy`: Python `strip`, `str.replace`, `join`, and code-point string order, with sorted-distinct lists.
- `sorting.dfy`: a stable sort by an integer key, which is what Python's `list.sort(key=…)` and JavaScript's `Array.prototype.sort` do.
- `records.dfy`: the utterance and entry records.

Foreign calls are parameters of the model:

- the upload save (`saved`);
- the audio split (`split`);
- the per-window transcription (`transcribe: Window -> seq<Utterance>`);
- the fresh job id (`freshId`);
- whether ffmpeg is installed (`ffmpegAvailable`).

Points where the code does something other than its names and comments suggest (the model follows the code):

- **Only a zero step is rejected.** A window length equal to the overlap raises `ZeroDivisionError`, which is re-raised. A negative step is not rejected. It yields `max(1, …)` windows computed with floor division, and `Windower.FloorDiv` models Python's `//` for both signs. The lemmas about window shape assume a positive step and a non-negative overlap (`Sensible`).
- **The configured windows.** With 480000 ms windows, a 10000 ms overlap and a 1000000 ms recording, the windows are `(0, 480000)`, `(460000, 950000)` and `(930000, 1000000)`. The second window starts at 460000, pulled back from its nominal 470000, and ends at 950000, measured from that nominal start.
- **Neighbouring windows share twice the overlap.** The end comes from the nominal start, so a window can be as long as `segment + overlap`. Two neighbouring windows therefore share `2 * overlap` (20000 ms with the configured values), not the `overlap` the comments speak of, unless the earlier window is cut by the end of the recording or the later window's start is clamped at 0 (which happens only while `(i + 1) * (segment - overlap) < overlap`).
- **A window can be empty.** A zero-length recording gives the single window `(0, 0)`, so `start < end` does not always hold.
- **Merged entries can overlap or run backwards.** The merge overwrites the open entry's `end` with the absorbed entry's `end`, so a merged entry can end earlier than before (`Merge.MergedEndCanShrink`). The final entries are sorted by start, but they are not guaranteed to be free of overlap.

Notes on representation:

- Python's `None` for `current_speaker` and an empty speaker id are both falsy and behave alike, so both are `""`.
- Python's `set` of speakers is a Dafny `set`: its iteration order is unspecified in the source, and the panel re-sorts it.
- Missing dictionary keys are `Option`s with the source's defaults.
- The HTML is built without escaping, as in the source.

## Model

| member | source | states |
|---|---|---|
| Windower.FloorDiv | modules/audio.py:18 | Python's `//`: the quotient rounded toward negative infinity, for either sign of the divisor |
| Windower.CountIsCeiling | modules/audio.py:17-18 | the window count is the least positive `n` with `n * (segment - overlap) >= total`, i.e. `max(1, ceil(total / step))` |
| Windower.NominalStartInside | modules/audio.py:26-28 | every window but window 0 has its nominal start `i * step` strictly inside the recording |
| Windower.WindowBounds | modules/audio.py:27-34 | every window satisfies `0 <= start <= end <= total`; window 0 is at most `segment` long and a later one at most `segment + overlap` long, because its end is computed before the pull-back |
| Windower.EndsAtTotal | modules/audio.py:17-34 | there is at least one window, window 0 starts at 0 and the last window ends exactly at `total` |
| Windower.Chained | modules/audio.py:27-34 | the next window never starts after the current one ends |
| Windower.SharedSpan | modules/audio.py:27-34 | two neighbouring windows share exactly `2 * overlap` milliseconds when the earlier one is not cut by the end of the recording and the later one's pulled-back start is not clamped at 0 |
| Windower.Covers | modules/audio.py:17-34 | every millisecond of `[0, total)` lies in the `[start, end)` of some window |
| Windower.WindowHolds | modules/audio.py:27-34 | the window whose nominal step contains `t` also contains `t` |
| Audio.SplitAudio | modules/audio.py:10-56 | the loop returns `ZeroDivision` exactly when the step is zero, and otherwise returns the windows `WindowAt(0) … WindowAt(n-1)`, indexed and in order |
| Audio.ConfiguredWindows | modules/audio.py:17-34 | with the configured 480000 ms windows, the configured 10000 ms overlap and a 1000000 ms recording, the windows are exactly `(0,480000,0)`, `(460000,950000,1)` and `(930000,1000000,2)` |
| AudioAlternative.SplitAudio | modules/audio_alternative.py:35-106 | fails with `FfmpegMissing` without ffmpeg and with `ZeroDivision` exactly when the step is zero; otherwise it returns the same window list as the pydub variant |
| Text.RemoveAll | modules/transcription.py:108 | `replace(pat, '')` never lengthens a string and leaves a string without an occurrence of `pat` unchanged |
| Text.SortedDistinct | modules/transcription.py:192 | `sorted(set(xs))`: strictly increasing in code-point order, without duplicates, and with exactly the elements of `xs` |
| Sorting.SortBy | modules/transcription.py:185 | the sort is a sorted permutation of its input in which the elements of each key keep their input order (stability) |
| Sorting.SortSortedIsIdentity | modules/transcription.py:251 | sorting an already sorted list returns it unchanged |
| WordGrouping.SegmentTranscript | modules/transcription.py:84-139 | without `text` the window yields nothing; without diarisation or without `words` it yields one utterance of speaker `'1'` at 0–0 carrying the whole text; otherwise it yields the word grouping |
| WordGrouping.GroupWordsIsRuns | modules/transcription.py:97-131 | when every speaker id is non-empty, the fold equals the run description: one utterance per maximal run of one id, whose text is the run's word texts concatenated and stripped, whose id has `speaker_` removed, starting at the run's first word and ending where the next run starts; the last run ends at the last word's `end` and is dropped when its text is empty |
| WordGrouping.FoldEmitsRuns | modules/transcription.py:101-131 | once a run's first word has been consumed, the rest of the loop and the final append emit exactly the run utterances |
| WordGrouping.FoldWithinRun | modules/transcription.py:120-122 | inside a run the loop only appends word texts |
| WordGrouping.RunLength | modules/transcription.py:101-105 | a run is maximal: its words share the first word's id, and the word after it has another id |
| WordGrouping.RunsChained | modules/transcription.py:105-113 | every utterance ends exactly where the next one starts |
| WordGrouping.RunsStart | modules/transcription.py:116-118 | the first utterance starts at the first word's `start` |
| WordGrouping.RunsLastEnd | modules/transcription.py:125-131 | when the last word has text, the last utterance ends at the last word's `end` |
| WordGrouping.LabelOfProviderId | modules/transcription.py:108 | an id `speaker_<digits>` becomes its bare digits |
| SpeakerMap.WindowStart | modules/transcription.py:162-168 | the offset of window `idx` is the `start_time` of the first raw window whose `index` is `idx`, and 0 when there is none |
| SpeakerMap.WindowStartOfSplit | modules/transcription.py:162-168 | for the split's own window list, the offset of window `i` is that window's start |
| SpeakerMap.Lift | modules/transcription.py:170-182 | each utterance becomes an entry with the same text and speaker, `start` and `end` shifted by the window's offset, and the window's index |
| SpeakerMap.FlattenByWindow | modules/transcription.py:160-182 | the flattened list restricted to window `idx` is exactly window `idx`'s utterances, lifted, in order; it is empty for an index with no window |
| SpeakerMap.FlattenFromByWindow | modules/transcription.py:160-182 | the same, for the flattening of the windows from position `base` onwards |
| SpeakerMap.OfWindowMembers | modules/transcription.py:192 | the filter `segment_index == idx` keeps exactly the entries tagged with `idx` |
| SpeakerMap.SortedTiesKeepOrder | modules/transcription.py:185 | the sorted flat list is sorted by start, is a permutation of the flat list, and keeps entries with equal starts in window order and then in-window order |
| SpeakerMap.Speakers | modules/transcription.py:192 | the speakers listed are exactly those of the entries |
| SpeakerMap.WindowSpeakers | modules/transcription.py:201 | a window's local speakers are strictly increasing in code-point order, so `"10"` comes before `"2"` |
| SpeakerMap.WindowSpeakersMembers | modules/transcription.py:201 | a window's local speakers are exactly the speakers of its entries |
| SpeakerMap.MaxWindow | modules/transcription.py:199 | `max(segment_index)` is attained by an entry and bounds every entry |
| SpeakerMap.TargetIsModulo | modules/transcription.py:204-224 | both branches of the position mapping agree: the `k`-th local speaker maps to `canonical[k mod C]`, and the mapping fails when `C = 0` |
| SpeakerMap.MapWindow | modules/transcription.py:204-224 | the inner loop fails exactly when there is a speaker left and no canonical speaker; otherwise it maps every remaining local speaker `j` to `canonical[j mod C]`, keeps the other keys, and only ever maps to canonical ids |
| SpeakerMap.MapWindowsFailsIff | modules/transcription.py:199-224 | the loop over windows fails exactly when there are no canonical speakers and some window in range has an entry |
| SpeakerMap.MapWindowsKeepsEarlier | modules/transcription.py:199-224 | the loop over later windows never changes the keys of earlier windows |
| SpeakerMap.MapWindowsAssigns | modules/transcription.py:199-224 | after the loop, every (window, `k`-th local speaker) pair in range maps to `canonical[k mod C]` |
| SpeakerMap.MapWindowsValues | modules/transcription.py:199-224 | the loop only ever maps to canonical ids |
| SpeakerMap.Identity | modules/transcription.py:194-196 | window 0's canonical speakers map to themselves, and nothing else is in the initial mapping |
| SpeakerMap.BuildMappingFailsIff | modules/transcription.py:192-224 | the mapping raises exactly when no entry belongs to window 0: either there is no entry at all (`max` of an empty list) or a later window has speakers while there are none to map them to |
| SpeakerMap.MappingOfWindowZero | modules/transcription.py:194-196 | every window-0 speaker maps to itself |
| SpeakerMap.MappingOfLaterWindow | modules/transcription.py:204-224 | in window `j >= 1`, the `k`-th sorted local speaker maps to `canonical[k mod C]` |
| SpeakerMap.MappingCoversEntries | modules/transcription.py:199-224 | every (window, speaker) pair of an entry has a mapping, and it is a window-0 speaker |
| SpeakerMap.MappingValues | modules/transcription.py:199-224 | every mapped id is a window-0 speaker |
| Merge.ApplyLabels | modules/transcription.py:229-248 | each entry keeps its text, times and window, and its speaker becomes `labels[mapped]` when present and `"Speaker " + mapped` otherwise, where `mapped` is the mapping's value or the original id |
| Merge.SecondSortIsIdentity | modules/transcription.py:251 | relabelling keeps the start order, so the second sort changes nothing |
| Merge.ApplyLabelsSorted | modules/transcription.py:229-251 | relabelling a start-sorted list leaves it start-sorted |
| Merge.ApplyLabelsLabelled | modules/transcription.py:229-237 | after relabelling, every entry's speaker is the display label of a window-0 speaker |
| Merge.RelabelledTexts | modules/transcription.py:240-246 | relabelling does not change any text |
| Merge.MergeFrom | modules/transcription.py:257-272 | the pass from an open entry emits at least one and at most `1 + |rest|` entries, and the first keeps the open entry's speaker, start and window |
| Merge.MergeAdjacent | modules/transcription.py:254-272 | the merge never lengthens the list and is empty exactly for empty input |
| Merge.MergeAdjacentBlocks | modules/transcription.py:254-272 | for every input the output is one merged entry per block of a cut of the input: inside a block each entry has the accumulator's speaker and starts less than 2000 ms after its end, and each block's first entry is one the previous output entry would not absorb; so an entry is absorbed exactly when the rule holds |
| Merge.MergeFromBlocks | modules/transcription.py:257-272 | the same cut for the pass from an open entry, whose first block starts with that entry |
| Merge.AbsorbAll | modules/transcription.py:263-266 | absorbing a block keeps the head's speaker, start and window and ends at the last absorbed entry's end |
| Merge.AbsorbAllText | modules/transcription.py:265 | a merged block's text is its entries' texts joined by single spaces |
| Merge.ChainSpeaker | modules/transcription.py:263 | every entry absorbed into a block has the block head's speaker |
| Merge.SpeakerChangeCuts | modules/transcription.py:263-269 | `X` at 0–1000 ms followed by `Y` at 5000–6000 and 6500–7000 merges to `X` and `Y: "b c"` ending at 7000: the speaker change cuts, the close same-speaker entry is absorbed |
| Merge.MergeFromSettled | modules/transcription.py:257-269 | after the pass, no entry would absorb its successor: no same-speaker neighbours closer than 2000 ms |
| Merge.MergeFromOfSettled | modules/transcription.py:257-269 | a list in which no entry would absorb its successor passes through unchanged |
| Merge.MergeAdjacentIdempotent | modules/transcription.py:254-272 | the merge's output is settled, so running the merge again returns it unchanged |
| Merge.MergeFromText | modules/transcription.py:263-266 | the pass preserves the texts joined with single spaces |
| Merge.MergeAdjacentText | modules/transcription.py:254-272 | joining the merged texts with `" "` gives the joined input texts |
| Merge.MergeFromSorted | modules/transcription.py:257-272 | on start-sorted input the pass emits a start-sorted list that starts no earlier than the open entry |
| Merge.MergeFromLabels | modules/transcription.py:257-272 | the pass emits only speakers that its input had |
| Merge.MergeAdjacentLabels | modules/transcription.py:254-272 | the merge keeps every speaker the display label of a window-0 speaker |
| Merge.MergeAdjacentShape | modules/transcription.py:254-272 | for non-empty sorted input the merge returns between 1 and `n` entries, sorted by start, settled, and fixed by a second merge |
| Merge.OrderedHasWindowZero | modules/transcription.py:160-192 | the sorted flat list has a window-0 entry exactly when window 0 has an utterance |
| Merge.MergeEmptyIff | modules/transcription.py:199-284 | the transcript is empty exactly when there are no windows or window 0 has no utterance, through the `max` of an empty list, the `% 0` or the `[0]` index, all of which the bare `except` turns into `[]` |
| Merge.SuccessfulMerge | modules/transcription.py:150-280 | when window 0 has an utterance, the mapping succeeds and the result is the merge of the relabelled sorted flat list |
| Merge.MergeOutcomeShape | modules/transcription.py:150-280 | when window 0 has an utterance, the result has between 1 and as many entries as utterances, is sorted by start, has no absorbable neighbours, and is fixed by another merge pass |
| Merge.MergeOutcomeText | modules/transcription.py:150-280 | when window 0 has an utterance, joining the result's texts with `" "` gives the sorted utterances' texts joined with `" "` |
| Merge.MergeOutcomeLabels | modules/transcription.py:229-272 | when window 0 has an utterance, every speaker in the result is the display label of a window-0 speaker |
| Merge.FlattenFromTrailingEmpty | modules/transcription.py:160-182 | an empty window at the end contributes no entry to the flattened list |
| Merge.TrailingEmptyWindow | modules/transcription.py:160-224 | an empty window after the others does not change the merged transcript |
| Merge.GapBoundary | modules/transcription.py:263-264 | the threshold is strict: a gap of 1999 ms merges and a gap of 2000 ms does not |
| Merge.MergedEndCanShrink | modules/transcription.py:266 | absorbing an entry nested inside the open one moves the merged end backwards |
| Job.Transcribe | app.py:233-282 | 400 exactly when the file or the API key is missing, 500 when saving fails, and in both cases the job is unchanged; otherwise 202 with a fresh job whose id is new, with the saved path, the status `Processing audio file`, the settings read from the form, progress 0, not complete, an empty transcript, processing reset and no stage, segments, speakers or final transcript |
| Job.DiarizationRule | app.py:242 | for every form, diarisation is on exactly when the field is absent (default `'true'`) or its lower-cased value equals `true` |
| Job.DiarizationFlag | app.py:242 | worked cases of that rule: absent and `TRUE` turn it on, `false` and the empty string turn it off |
| Text.IgnoringCaseIsLowered | app.py:242 | two strings are equal ignoring ASCII case exactly when their `lower()` forms are equal |
| Job.Annotate | app.py:126-130 | each utterance keeps its content and gains the window index, the window start and absolute start and end equal to the window start plus its local times |
| Job.TranscribeAll | app.py:108-141 | window `i`'s annotated transcription is at position `i`, in list order |
| Job.ProcessAudio | app.py:74-168 | always ends complete; a split failure gives `Error splitting audio: …` and changes nothing else; otherwise it stores the windows and every window's annotated transcript, takes `transcript` and `first_segment` from window 0 only, and ends `Ready for speaker labeling` at 100 in stage `speaker_labeling` with the set of window 0's speakers; an empty window list ends with the `first_segment` key error; every field not named keeps its old value |
| Job.ProcessTranscript | app.py:304-331 | 400 exactly for empty labels, leaving the job unchanged; otherwise 202 after resetting the processing progress to 0, the completion flag to false and the final transcript to `[]`, with every other field untouched |
| Job.ProcessTranscriptWithLabels | modules/transcription.py:286-331 | always ends with processing complete; without segments it reports `Error: No transcript segments found` and keeps the old final transcript; otherwise the final transcript is the merge of the stored segments with the labels and the stored windows, at progress 100; every other field keeps its old value |
| Job.Transcripts | app.py:109-133 | the transcripts of the windows, each at its window's position |
| Job.Session | app.py:233-331 | accepting an upload, splitting it with the configured sizes, transcribing and labelling yields as final transcript the merge of the windows' transcripts in window order, located by those windows; it is empty exactly when window 0 has no utterance |
| Render.StripSpeakerPrefix | static/js/main.js:143 | `replace(/^speaker_?/i, '')` never lengthens a label and leaves a label without the prefix unchanged |
| Render.NormaliseLabelOfNumber | static/js/main.js:141-145 | a bare number or `speaker`/`speaker_` (any case) plus digits becomes `"Speaker "` plus the digits |
| Render.DisplayedIsNotNumber | static/js/main.js:141-145 | a label `"Speaker …"` matches neither pattern |
| Render.NormaliseChangesIff | static/js/main.js:141-145 | normalisation changes a label exactly when it matches one of the two patterns |
| Render.NormaliseIdempotent | static/js/main.js:141-145 | normalising twice is the same as normalising once |
| Render.HtmlLoop | static/js/main.js:136-152 | the loop builds the blocks' HTML: one text div per segment in order, preceded by a speaker div exactly when the normalised label changes |
| Render.FormatTranscript | static/js/main.js:128-155 | a missing or empty transcript gives the placeholder paragraph; otherwise the HTML of the blocks starting from the empty previous label |
| Render.FirstHeader | static/js/main.js:130 | the first segment gets a header exactly when its normalised label is not empty |
| Render.HeaderIffChange | static/js/main.js:147-150 | a later segment gets a header exactly when its normalised label differs from the previous segment's |
| Render.PlainLoop | static/js/ui-controller.js:326-342 | the export loop writes `"\n<label>:\n"` exactly when the normalised label changes and `text + "\n"` for every segment, in order |
| Render.ExportSource | static/js/ui-controller.js:320-323 | the final transcript is exported when it is non-empty, and the initial one otherwise |
| Render.ExportText | static/js/ui-controller.js:313-399 | copy and download export the same text: the plain form of the blocks of the chosen transcript |
| Render.TruncateText | static/js/main.js:157-161 | a missing or empty text gives `''`, a text within the limit is returned as it is, and a longer one gives its first `max` characters followed by `...` |
| Render.TruncateSettles | static/js/main.js:157-161 | truncating a truncated text with the ellipsis allowance changes nothing |
| Labeling.ExamplesAreFirstTexts | static/js/transcript.js:12-17 | a speaker has an example exactly when it speaks, and the example is its first non-empty text, which no later text overwrites |
| Labeling.ParseInt | static/js/transcript.js:22-23 | `parseInt(s, 10)` is `NaN` exactly when no digit follows the leading white space and optional sign |
| Labeling.ParseIntOf | static/js/transcript.js:22-23 | white space, then an optional sign, then a digit run, then anything that does not start with a digit parses to the decimal value of the digits, negated exactly when the sign is `-` |
| Labeling.TrimJsStart | static/js/transcript.js:22-23 | the trimmed string is a suffix of the input whose dropped prefix is all white space and which does not itself start with white space |
| Labeling.StripOfId | static/js/transcript.js:22 | stripping `speaker`/`speaker_` from an id leaves its digits |
| Labeling.ParseDigits | static/js/transcript.js:22 | a digit string parses to its decimal value |
| Labeling.SpeakerNumberOfId | static/js/transcript.js:20-25 | the sort key of `speaker_<digits>` (any case, underscore optional) is the number the digits denote |
| Labeling.OrderSpeakers | static/js/transcript.js:20-25 | the ordered speakers are a permutation of the input, sorted by their number, and speakers with equal numbers keep their order |
| Labeling.NumericNotLexical | static/js/transcript.js:20-25 | `speaker_2` comes before `speaker_10` |
| Labeling.LabelingRows | static/js/transcript.js:7-51 | no panel without speakers; otherwise one row per speaker, a permutation in numeric order, coloured by position mod 10, with input id `speaker-<id>` and default value `Speaker <id>` |
| Labeling.RowExample | static/js/transcript.js:12-47 | each row shows its speaker's first non-empty text, truncated to 100 characters |
| Labeling.FirstTextAbsent | static/js/transcript.js:47 | a speaker without a segment has the empty example |
| Labeling.CollectLabels | static/js/transcript.js:104-111 | collecting labels never yields an empty label and keeps every key already collected |
| Labeling.CollectLabelsKeys | static/js/transcript.js:104-108 | a key is in the collected labels exactly when it was there before or some `speaker-` input's id minus that prefix is the key |
| Labeling.CollectLabelsLastWriter | static/js/transcript.js:104-108 | a key's label comes from the last input that writes it: that input's value, or `Speaker <id>` when the value is empty |
| Labeling.CollectLabelsUntouched | static/js/transcript.js:104-108 | a key no input writes keeps its earlier label |
| Labeling.ClearedAndEdited | static/js/transcript.js:106 | a cleared field yields `Speaker A`, an edited one yields the typed name |
| Labeling.CollectPrefilled | static/js/transcript.js:104-108 | from unedited rows, every row's speaker gets the label `Speaker <id>`, and other keys are kept |
| Labeling.CollectUnedited | static/js/transcript.js:104-108 | unedited rows give exactly the map from each speaker to `Speaker <id>` |
| Labeling.UneditedRoundTrip | static/js/transcript.js:41-108 | submitting the panel unedited sends the map from each speaker to `Speaker <id>`; the server accepts it with 202, and it labels every speaker as if no label had been given |

## Left out

- The ElevenLabs request, its status check, its JSON decoding and its logging are network I/O. The decoded reply is an input of `WordGrouping.SegmentTranscript`, and a failed request is `None`, which gives the same `[]`.
- pydub decoding and export, the ffmpeg and ffprobe subprocesses, and the float seconds-to-milliseconds conversion are foreign calls and floating point. The duration is an input of `SplitAudio`.
- Threads, Flask routing, the read-only status endpoints and the global `current_job` aliasing are concurrency and HTTP. Each handler is one atomic transition.
- The in-loop statuses `Transcribing segment i of n`, the progress `int((i / len) * 100)` and the staged statuses of `process_transcript_with_labels` are left out. Each is float arithmetic or an intermediate value that the same transition overwrites before it ends. `time.sleep` pacing is left out too.
- `log_elevenlabs_endpoints` and `clean_up_file` are network and file I/O. Both catch their own exceptions (modules/api.py:38-39, modules/utils.py:21-23), so they never reach the `Error: …` handler. That handler is reached only through a `NameError` when the transcription imports failed at start-up (app.py:39-48), which is not modelled. `Job.ProcessAudio` states that every run ends complete.
- Saving the upload and generating the uuid are inputs (`saved`, `freshId`).
- The logo download and the helpers in `modules/api.py` and `modules/utils.py` are I/O and are not modelled.
- DOM updates, timers, polling, the clipboard and the Blob download are browser I/O. The model returns the strings the code builds.
- `config.py` beyond its two window constants is logging set-up.
- The `original_speaker` field of the flattened utterances is never read again, so it is not modelled.
- JSON type confusion is not modelled: a `speaker_labels` value that is not an object, or word fields of unexpected types.
- WordGrouping.GroupWordsIsRuns: the equality with the run description assumes every speaker id is non-empty. An empty id is falsy in the loop and merges with the following run. The fold itself (`GroupWords`) still models that case as written.
- Text.AsciiLower: case-insensitive matching folds ASCII letters only. This is exact for the JavaScript `/i` regular expressions without the `u` flag. It is also exact for Python's `lower() == 'true'` test, since no other character lower-cases to one of those four letters.
- Render.TruncateText: lengths count code points, while JavaScript counts UTF-16 code units. The two differ only for characters outside the Basic Multilingual Plane.
- Labeling.ParseInt: the parsed number is an exact integer. JavaScript's `parseInt` returns a double, which loses precision above 2^53, so ids with more than fifteen digits could order differently.
- Labeling.CollectLabels: the labels are a Dafny map, while the code writes into a plain JavaScript object. A speaker id such as `__proto__` creates no own key there. The same holds for `Labeling.Examples`: ids such as `constructor` or `toString` find an inherited truthy value, so no example is recorded for them. Ordinary ids behave the same in both.
- Labeling.LabelingRows: the speaker list the server sends comes from a Python set, and its order is unspecified. The model takes that order as an input.
