/** The single global job record and the request handlers and background
    steps that update it. Each handler is one atomic transition from the old
    record to the new one; the thread that runs a background step is erased,
    and every foreign call (saving the upload, splitting the audio,
    transcribing a window) is an input. */
module Job {
  import opened Wrappers
  import opened Text
  import opened Records
  import opened Windower
  import opened Merge
  import Config

  datatype Settings = Settings(diarize: bool, numSpeakers: string, modelId: string)

  /** A window's utterance with the metadata `process_audio` attaches. */
  datatype Annotated = Annotated(
    utterance: Utterance,
    segmentIndex: nat,
    segmentStartTime: int,
    absoluteStart: int,
    absoluteEnd: int)

  /** `current_job`. Keys that the dictionary may lack are `Option`s. */
  datatype Job = Job(
    id: Option<string>,
    progress: int,
    status: string,
    complete: bool,
    transcript: seq<Annotated>,
    filePath: Option<string>,
    settings: Option<Settings>,
    processingProgress: int,
    processingComplete: bool,
    rawSegments: Option<seq<Window>>,
    firstSegment: Option<seq<Annotated>>,
    allSegments: Option<seq<seq<Annotated>>>,
    stage: Option<string>,
    speakers: Option<set<string>>,
    finalTranscript: Option<seq<Entry>>)

  /** The record at start-up. */
  const InitialJob: Job :=
    Job(None, 0, "Not started", false, [], None, None, 0, false, None, None, None, None, None, None)

  /** A JSON reply with a single key, and its HTTP status. */
  datatype Answer = Answer(code: int, key: string, value: string)

  /** The form fields of `POST /transcribe`; `audioFileName` stands for the
      uploaded file, which is falsy when absent or without a name. */
  datatype TranscribeRequest = TranscribeRequest(
    audioFileName: Option<string>,
    apiKey: Option<string>,
    enableDiarization: Option<string>,
    numSpeakers: Option<string>,
    modelId: Option<string>)

  /** A form value Python treats as true: present and non-empty. */
  predicate Present(s: Option<string>) {
    s.Some? && s.value != ""
  }

  function SettingsOf(req: TranscribeRequest): Settings {
    Settings(
      EqualsIgnoringCase(req.enableDiarization.GetOr("true"), "true"),
      req.numSpeakers.GetOr(""),
      req.modelId.GetOr("scribe_v1"))
  }

  /** `POST /transcribe`. `saved` is the outcome of saving the upload, which
      only happens once both fields are present. */
  function Transcribe(job: Job, req: TranscribeRequest, saved: Result<string, string>, freshId: string): (r: (Job, Answer))
    ensures r.1.code == 400 <==> !Present(req.audioFileName) || !Present(req.apiKey)
    ensures r.1.code == 202 <==> Present(req.audioFileName) && Present(req.apiKey) && saved.Success?
    ensures r.1.code != 202 ==> r.0 == job
    ensures r.1.code == 500 ==> r.1 == Answer(500, "error", "Failed to save file: " + saved.error)
    ensures r.1.code == 202 ==>
      && r.1 == Answer(202, "job_id", freshId)
      && r.0.id == Some(freshId) && r.0.filePath == Some(saved.value)
      && r.0.progress == 0 && !r.0.complete && r.0.transcript == []
      && r.0.processingProgress == 0 && !r.0.processingComplete
      && r.0.rawSegments.None? && r.0.allSegments.None? && r.0.firstSegment.None?
      && r.0.speakers.None? && r.0.finalTranscript.None?
      && r.0.stage.None? && r.0.status == "Processing audio file"
      && r.0.settings == Some(SettingsOf(req))
  {
    if !Present(req.audioFileName) || !Present(req.apiKey) then
      (job, Answer(400, "error", "Missing audio file or API key"))
    else match saved
      case Failure(msg) => (job, Answer(500, "error", "Failed to save file: " + msg))
      case Success(path) =>
        (Job(Some(freshId), 0, "Processing audio file", false, [], Some(path), Some(SettingsOf(req)),
             0, false, None, None, None, None, None, None),
         Answer(202, "job_id", freshId))
  }

  /** Diarisation is on unless the field says something other than "true"
      in any letter case. */
  lemma {:induction false} DiarizationFlag()
    ensures SettingsOf(TranscribeRequest(None, None, None, None, None)).diarize
    ensures SettingsOf(TranscribeRequest(None, None, Some("TRUE"), None, None)).diarize
    ensures !SettingsOf(TranscribeRequest(None, None, Some("false"), None, None)).diarize
    ensures !SettingsOf(TranscribeRequest(None, None, Some(""), None, None)).diarize
  {
    assert !EqualsIgnoringCase("false", "true") by {
      assert AsciiLower("false"[0]) != AsciiLower("true"[0]);
    }
  }

  /** `enable_diarization` is on exactly when the field is absent (its
      default is "true") or its lower-cased value is "true". */
  lemma {:induction false} DiarizationRule(req: TranscribeRequest)
    ensures SettingsOf(req).diarize
      <==> req.enableDiarization.None? || LowerAscii(req.enableDiarization.value) == "true"
  {
    var s := req.enableDiarization.GetOr("true");
    IgnoringCaseIsLowered(s, "true");
    assert LowerAscii("true") == "true";
  }

  /** One window's utterances with their window index, window start, and
      absolute times. */
  function Annotate(us: seq<Utterance>, w: Window): (r: seq<Annotated>)
    ensures |r| == |us|
    ensures forall j :: 0 <= j < |r| ==> r[j].utterance == us[j]
    ensures forall j :: 0 <= j < |r| ==>
      r[j].segmentIndex == w.index && r[j].segmentStartTime == w.startTime
      && r[j].absoluteStart == w.startTime + us[j].start && r[j].absoluteEnd == w.startTime + us[j].end
  {
    seq(|us|, j requires 0 <= j < |us| =>
      Annotated(us[j], w.index, w.startTime, w.startTime + us[j].start, w.startTime + us[j].end))
  }

  /** The windows transcribed in list order. */
  function TranscribeAll(ws: seq<Window>, transcribe: Window -> seq<Utterance>): (r: seq<seq<Annotated>>)
    ensures |r| == |ws|
    ensures forall i :: 0 <= i < |ws| ==> r[i] == Annotate(transcribe(ws[i]), ws[i])
  {
    seq(|ws|, i requires 0 <= i < |ws| => Annotate(transcribe(ws[i]), ws[i]))
  }

  /** The utterances with the annotations dropped, as the merge reads them. */
  function Plain(all: seq<seq<Annotated>>): (r: seq<seq<Utterance>>)
    ensures |r| == |all|
    ensures forall i :: 0 <= i < |all| ==> |r[i]| == |all[i]|
    ensures forall i, j :: 0 <= i < |all| && 0 <= j < |all[i]| ==> r[i][j] == all[i][j].utterance
  {
    seq(|all|, i requires 0 <= i < |all| => seq(|all[i]|, j requires 0 <= j < |all[i]| => all[i][j].utterance))
  }

  function SpeakerSet(us: seq<Annotated>): set<string> {
    set a | a in us :: a.utterance.speaker
  }

  /** `process_audio`, given the outcome of the split and the transcription
      of each window. */
  function ProcessAudio(job: Job, split: Result<seq<Window>, string>, transcribe: Window -> seq<Utterance>): (r: Job)
    ensures r.complete
    ensures split.Failure? ==>
      r == job.(status := "Error splitting audio: " + split.error, complete := true)
    ensures split.Success? && split.value != [] ==>
      && r.rawSegments == Some(split.value)
      && r.allSegments == Some(TranscribeAll(split.value, transcribe))
      && r.firstSegment == Some(Annotate(transcribe(split.value[0]), split.value[0]))
      && r.transcript == r.firstSegment.value
      && r.status == "Ready for speaker labeling" && r.progress == 100
      && r.stage == Some("speaker_labeling")
      && r.speakers == Some(set u | u in transcribe(split.value[0]) :: u.speaker)
    ensures split.Success? && split.value != [] ==>
      var first := Annotate(transcribe(split.value[0]), split.value[0]);
      r == job.(rawSegments := Some(split.value), allSegments := Some(TranscribeAll(split.value, transcribe)),
                firstSegment := Some(first), transcript := first,
                status := "Ready for speaker labeling", progress := 100, stage := Some("speaker_labeling"),
                complete := true, speakers := Some(set u | u in transcribe(split.value[0]) :: u.speaker))
    ensures split.Success? && split.value == [] && job.firstSegment.None? ==>
      r.status == "Error: 'first_segment'"
    ensures split.Success? && split.value == [] && job.firstSegment.None? ==>
      r == job.(rawSegments := Some([]), status := "Error: 'first_segment'", progress := 100,
                stage := Some("speaker_labeling"), complete := true)
    ensures split.Success? && split.value == [] && job.firstSegment.Some? ==>
      r == job.(rawSegments := Some([]), status := "Ready for speaker labeling", progress := 100,
                stage := Some("speaker_labeling"), complete := true,
                speakers := Some(SpeakerSet(job.firstSegment.value)))
    ensures r.id == job.id && r.finalTranscript == job.finalTranscript
  {
    match split
    case Failure(msg) => job.(status := "Error splitting audio: " + msg, complete := true)
    case Success(ws) =>
      var all := TranscribeAll(ws, transcribe);
      var stored := job.(rawSegments := Some(ws));
      var looped :=
        if ws == [] then stored
        else stored.(allSegments := Some(all), firstSegment := Some(all[0]), transcript := all[0]);
      var ready := looped.(status := "Ready for speaker labeling", progress := 100,
                           stage := Some("speaker_labeling"), complete := true);
      match ready.firstSegment
      case None => ready.(status := "Error: 'first_segment'", complete := true)
      case Some(first) =>
        assert ws != [] ==> SpeakerSet(first) == set u | u in transcribe(ws[0]) :: u.speaker by {
          if ws != [] {
            var us := transcribe(ws[0]);
            forall s ensures s in SpeakerSet(first) <==> s in set u | u in us :: u.speaker {
              if s in SpeakerSet(first) {
                var a :| a in first && a.utterance.speaker == s;
                var j :| 0 <= j < |first| && first[j] == a;
                assert us[j] in us;
              }
              if s in set u | u in us :: u.speaker {
                var u :| u in us && u.speaker == s;
                var j :| 0 <= j < |us| && us[j] == u;
                assert first[j] in first;
              }
            }
          }
        }
        ready.(speakers := Some(SpeakerSet(first)))
  }

  /** `POST /process-transcript`. */
  function ProcessTranscript(job: Job, labels: map<string, string>): (r: (Job, Answer))
    ensures r.1.code == 400 <==> labels == map[]
    ensures labels == map[] ==> r == (job, Answer(400, "error", "No speaker labels provided"))
    ensures labels != map[] ==>
      && r.1 == Answer(202, "status", "processing")
      && r.0.processingProgress == 0 && !r.0.processingComplete && r.0.finalTranscript == Some([])
      && r.0.status == "Processing transcript with custom speaker labels"
      && r.0.allSegments == job.allSegments && r.0.rawSegments == job.rawSegments
      && r.0.transcript == job.transcript && r.0.complete == job.complete
    ensures labels != map[] ==>
      r.0 == job.(processingProgress := 0, processingComplete := false, finalTranscript := Some([]),
                  status := "Processing transcript with custom speaker labels")
  {
    if labels == map[] then (job, Answer(400, "error", "No speaker labels provided"))
    else
      (job.(processingProgress := 0, processingComplete := false, finalTranscript := Some([]),
            status := "Processing transcript with custom speaker labels"),
       Answer(202, "status", "processing"))
  }

  /** `process_transcript_with_labels`. */
  function ProcessTranscriptWithLabels(job: Job, labels: map<string, string>): (r: Job)
    ensures r.processingComplete
    ensures job.allSegments.None? || job.allSegments.value == [] ==>
      && r.status == "Error: No transcript segments found"
      && r.processingProgress == 50
      && r.finalTranscript == job.finalTranscript
    ensures job.allSegments.Some? && job.allSegments.value != [] ==>
      && r.finalTranscript == Some(MergeTranscriptions(Plain(job.allSegments.value), labels, job.rawSegments.GetOr([])))
      && r.status == "Processing complete"
      && r.processingProgress == 100
    ensures r.transcript == job.transcript && r.allSegments == job.allSegments && r.complete == job.complete
    ensures job.allSegments.None? || job.allSegments.value == [] ==>
      r == job.(status := "Error: No transcript segments found", processingProgress := 50, processingComplete := true)
    ensures job.allSegments.Some? && job.allSegments.value != [] ==>
      r == job.(finalTranscript := Some(MergeTranscriptions(Plain(job.allSegments.value), labels, job.rawSegments.GetOr([]))),
                status := "Processing complete", processingProgress := 100, processingComplete := true)
  {
    var all := job.allSegments.GetOr([]);
    if all == [] then
      job.(status := "Error: No transcript segments found", processingProgress := 50, processingComplete := true)
    else
      job.(finalTranscript := Some(MergeTranscriptions(Plain(all), labels, job.rawSegments.GetOr([]))),
           status := "Processing complete", processingProgress := 100, processingComplete := true)
  }

  /** The transcripts of the windows, in window order. */
  function Transcripts(ws: seq<Window>, transcribe: Window -> seq<Utterance>): (r: seq<seq<Utterance>>)
    ensures |r| == |ws| && forall i :: 0 <= i < |ws| ==> r[i] == transcribe(ws[i])
  {
    seq(|ws|, i requires 0 <= i < |ws| => transcribe(ws[i]))
  }

  lemma {:induction false} PlainOfTranscribeAll(ws: seq<Window>, transcribe: Window -> seq<Utterance>)
    ensures Plain(TranscribeAll(ws, transcribe)) == Transcripts(ws, transcribe)
  {
    var p := Plain(TranscribeAll(ws, transcribe));
    forall i | 0 <= i < |ws| ensures p[i] == transcribe(ws[i]) {
      assert |p[i]| == |transcribe(ws[i])|;
    }
  }

  /** A whole session with the configured window sizes: an accepted upload,
      a successful split, one labelling request. The final transcript is the
      merge of the windows' transcripts in window order, located by the
      windows themselves, and it is empty exactly when window 0 has no
      utterance. */
  lemma {:induction false} Session(req: TranscribeRequest, path: string, freshId: string, total: nat,
                transcribe: Window -> seq<Utterance>, labels: map<string, string>)
    requires Present(req.audioFileName) && Present(req.apiKey) && labels != map[]
    ensures var ws := Windows(total, Config.SegmentDuration, Config.OverlapDuration);
      var accepted := Transcribe(InitialJob, req, Success(path), freshId).0;
      var transcribed := ProcessAudio(accepted, Success(ws), transcribe);
      var requested := ProcessTranscript(transcribed, labels).0;
      var done := ProcessTranscriptWithLabels(requested, labels);
      var final := MergeTranscriptions(Transcripts(ws, transcribe), labels, ws);
      && transcribed.stage == Some("speaker_labeling")
      && done.finalTranscript == Some(final)
      && (final == [] <==> transcribe(WindowAt(0, total, Config.SegmentDuration, Config.OverlapDuration)) == [])
      && done.status == "Processing complete" && done.processingProgress == 100 && done.processingComplete
  {
    var ws := Windows(total, Config.SegmentDuration, Config.OverlapDuration);
    EndsAtTotal(total, Config.SegmentDuration, Config.OverlapDuration);
    var accepted := Transcribe(InitialJob, req, Success(path), freshId).0;
    var transcribed := ProcessAudio(accepted, Success(ws), transcribe);
    var all := TranscribeAll(ws, transcribe);
    assert transcribed.allSegments == Some(all) && transcribed.rawSegments == Some(ws);
    var requested := ProcessTranscript(transcribed, labels).0;
    assert requested.allSegments == Some(all) && requested.rawSegments == Some(ws);
    PlainOfTranscribeAll(ws, transcribe);
    var segs := Transcripts(ws, transcribe);
    assert Plain(all) == segs;
    MergeEmptyIff(segs, labels, ws);
    assert segs[0] == transcribe(ws[0]);
    assert ws[0] == WindowAt(0, total, Config.SegmentDuration, Config.OverlapDuration);
  }
}
