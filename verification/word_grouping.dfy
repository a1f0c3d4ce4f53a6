/** The speaker grouping inside `transcribe_segment_with_requests`: the
    provider's already decoded `words` list is folded, left to right, into
    one utterance per run of words that share a `speaker_id`. The HTTP
    request and the JSON decoding are left out. */
module WordGrouping {
  import opened Wrappers
  import opened Text
  import opened Records

  /** One decoded word; a missing key is `None`. */
  datatype Word = Word(text: Option<string>, speakerId: Option<string>, start: Option<int>, end: Option<int>)

  function SpeakerOf(w: Word): string { w.speakerId.GetOr("Unknown") }
  function TextOf(w: Word): string { w.text.GetOr("") }
  function StartOf(w: Word): int { w.start.GetOr(0) }
  function EndOf(w: Word): int { w.end.GetOr(0) }

  /** `speaker_id.replace('speaker_', '')`. */
  function SpeakerLabel(id: string): string {
    RemoveAll(id, "speaker_")
  }

  /** The loop variables `current_speaker`, `current_text`, `current_start`
      and the `transcription` list built so far. Python's initial `None` and
      an empty speaker id are both falsy and behave identically, so both are
      the empty string here. */
  datatype Acc = Acc(speaker: string, text: string, start: int, out: seq<Utterance>)

  const Initial := Acc("", "", 0, [])

  /** One iteration of the `for word in result['words']` loop. */
  function Step(a: Acc, w: Word): Acc {
    var id := SpeakerOf(w);
    var a1 :=
      if a.speaker != "" && id != a.speaker then
        Acc(a.speaker, "", StartOf(w), a.out + [Utterance(Strip(a.text), SpeakerLabel(a.speaker), a.start, StartOf(w))])
      else a;
    var a2 := if a1.speaker == "" then a1.(start := StartOf(w)) else a1;
    a2.(text := a2.text + TextOf(w), speaker := id)
  }

  function Fold(a: Acc, ws: seq<Word>): Acc
    decreases |ws|
  {
    if ws == [] then a else Fold(Step(a, ws[0]), ws[1..])
  }

  /** After the loop: the open group is appended only when its text is
      non-empty, ending at the last word's `end`. */
  function Finish(a: Acc, lastEnd: int): seq<Utterance> {
    if a.text != "" then a.out + [Utterance(Strip(a.text), SpeakerLabel(a.speaker), a.start, lastEnd)] else a.out
  }

  function GroupWords(ws: seq<Word>): seq<Utterance> {
    Finish(Fold(Initial, ws), if ws != [] then EndOf(ws[|ws| - 1]) else 0)
  }

  /** The decoded response: `None` for a failed request, a non-200 status or
      a body that is not JSON; otherwise its `text` and `words` keys. */
  datatype Reply = Reply(text: Option<string>, words: Option<seq<Word>>)

  /** What `transcribe_segment_with_requests` returns for one window. */
  function SegmentTranscript(diarize: bool, reply: Option<Reply>): (r: seq<Utterance>)
    ensures reply.None? || reply.value.text.None? ==> r == []
    ensures reply.Some? && reply.value.text.Some? && (!diarize || reply.value.words.None?)
      ==> r == [Utterance(reply.value.text.value, "1", 0, 0)]
    ensures reply.Some? && reply.value.text.Some? && diarize && reply.value.words.Some?
      ==> r == GroupWords(reply.value.words.value)
  {
    match reply
    case None => []
    case Some(res) =>
      if res.text.None? then []
      else if !diarize then [Utterance(res.text.value, "1", 0, 0)]
      else if res.words.Some? then GroupWords(res.words.value)
      else [Utterance(res.text.value, "1", 0, 0)]
  }

  // ---------------------------------------------------------------------
  // An independent description: maximal runs of equal speaker ids.

  /** How many leading words share the first word's speaker id. */
  function RunLength(ws: seq<Word>): (n: nat)
    requires ws != []
    ensures 1 <= n <= |ws|
    ensures forall j :: 0 <= j < n ==> SpeakerOf(ws[j]) == SpeakerOf(ws[0])
    ensures n < |ws| ==> SpeakerOf(ws[n]) != SpeakerOf(ws[0])
  {
    if |ws| == 1 || SpeakerOf(ws[1]) != SpeakerOf(ws[0]) then 1
    else 1 + RunLength(ws[1..])
  }

  function ConcatText(ws: seq<Word>): string {
    if ws == [] then "" else TextOf(ws[0]) + ConcatText(ws[1..])
  }

  /** One utterance per maximal run: its words' texts concatenated and
      stripped, its id without `speaker_`, starting at its first word and
      ending where the next run starts (the last run ends at `lastEnd`).
      A final run whose concatenated text is empty is dropped. */
  function Runs(ws: seq<Word>, lastEnd: int): seq<Utterance>
    decreases |ws|
  {
    if ws == [] then []
    else
      var n := RunLength(ws);
      var text := ConcatText(ws[..n]);
      var u := Utterance(Strip(text), SpeakerLabel(SpeakerOf(ws[0])), StartOf(ws[0]),
                         if n < |ws| then StartOf(ws[n]) else lastEnd);
      if n == |ws| then (if text == "" then [] else [u])
      else [u] + Runs(ws[n..], lastEnd)
  }

  /** Inside a run the fold only appends text. */
  lemma {:induction false} FoldWithinRun(a: Acc, ws: seq<Word>, k: nat)
    requires a.speaker != "" && k <= |ws|
    requires forall j :: 0 <= j < k ==> SpeakerOf(ws[j]) == a.speaker
    ensures Fold(a, ws) == Fold(a.(text := a.text + ConcatText(ws[..k])), ws[k..])
    decreases k
  {
    if k == 0 {
      assert ws[..0] == [] && ws[0..] == ws;
      assert a.text + "" == a.text;
    } else {
      var b := a.(text := a.text + TextOf(ws[0]));
      assert Step(a, ws[0]) == b;
      FoldWithinRun(b, ws[1..], k - 1);
      assert ws[1..][k - 1..] == ws[k..];
      assert ws[1..][..k - 1] == ws[1..k];
      assert ws[..k][1..] == ws[1..k];
      assert ConcatText(ws[..k]) == TextOf(ws[0]) + ConcatText(ws[1..k]);
      assert b.text + ConcatText(ws[1..k]) == a.text + ConcatText(ws[..k]);
    }
  }

  /** The accumulator once the first word of `ws` has been consumed. */
  function Opened(ws: seq<Word>, out: seq<Utterance>): Acc
    requires ws != []
  {
    Acc(SpeakerOf(ws[0]), TextOf(ws[0]), StartOf(ws[0]), out)
  }

  /** The accumulator at the end of the first run of `ws`. */
  lemma {:induction false} FirstRunFolded(ws: seq<Word>, out: seq<Utterance>)
    requires ws != [] && SpeakerOf(ws[0]) != ""
    ensures var n := RunLength(ws);
      Fold(Opened(ws, out), ws[1..]) == Fold(Opened(ws, out).(text := ConcatText(ws[..n])), ws[n..])
  {
    var n := RunLength(ws);
    var a := Opened(ws, out);
    var rest := ws[1..];
    assert forall j :: 0 <= j < n - 1 ==> SpeakerOf(rest[j]) == a.speaker by {
      forall j | 0 <= j < n - 1 ensures SpeakerOf(rest[j]) == a.speaker {
        assert rest[j] == ws[j + 1];
      }
    }
    FoldWithinRun(a, rest, n - 1);
    assert rest[n - 1..] == ws[n..];
    assert ws[..n][1..] == rest[..n - 1];
  }

  /** At a speaker change the fold closes the run and opens the next one. */
  lemma {:induction false} RunClosed(ws: seq<Word>, a: Acc, n: nat)
    requires 0 < n < |ws|
    requires a.speaker != "" && SpeakerOf(ws[n]) != a.speaker
    ensures Fold(a, ws[n..]) == Fold(Opened(ws[n..], a.out + [Utterance(Strip(a.text), SpeakerLabel(a.speaker), a.start, StartOf(ws[n]))]), ws[n + 1..])
  {
    var v := ws[n];
    assert "" + TextOf(v) == TextOf(v);
    assert ws[n..][1..] == ws[n + 1..];
  }

  /** The run utterance for the first run of `ws`. */
  function FirstRun(ws: seq<Word>, lastEnd: int): Utterance
    requires ws != []
  {
    var n := RunLength(ws);
    Utterance(Strip(ConcatText(ws[..n])), SpeakerLabel(SpeakerOf(ws[0])), StartOf(ws[0]),
              if n < |ws| then StartOf(ws[n]) else lastEnd)
  }

  lemma {:induction false} RunsUnfold(ws: seq<Word>, lastEnd: int)
    requires ws != []
    ensures var n := RunLength(ws);
      Runs(ws, lastEnd) == if n == |ws| then (if ConcatText(ws[..n]) == "" then [] else [FirstRun(ws, lastEnd)])
                           else [FirstRun(ws, lastEnd)] + Runs(ws[n..], lastEnd)
  {
  }

  /** The last run: the loop ends and `Finish` appends it unless its text is
      empty. */
  lemma {:induction false} LastRunFinished(ws: seq<Word>, out: seq<Utterance>, lastEnd: int)
    requires ws != [] && RunLength(ws) == |ws|
    ensures Finish(Fold(Opened(ws, out).(text := ConcatText(ws[..|ws|])), ws[|ws|..]), lastEnd)
         == out + Runs(ws, lastEnd)
  {
    RunsUnfold(ws, lastEnd);
    assert ws[|ws|..] == [];
  }

  /** With the first word of a run already consumed, the fold emits exactly
      the run utterances of `ws`. */
  lemma {:induction false} FoldEmitsRuns(ws: seq<Word>, out: seq<Utterance>, lastEnd: int)
    requires ws != []
    requires forall j :: 0 <= j < |ws| ==> SpeakerOf(ws[j]) != ""
    ensures Finish(Fold(Opened(ws, out), ws[1..]), lastEnd) == out + Runs(ws, lastEnd)
    decreases |ws|
  {
    var n := RunLength(ws);
    if n == |ws| {
      FirstRunFolded(ws, out);
      LastRunFinished(ws, out, lastEnd);
    } else {
      var tail := ws[n..];
      assert forall j :: 0 <= j < |tail| ==> SpeakerOf(tail[j]) != "" by {
        forall j | 0 <= j < |tail| ensures SpeakerOf(tail[j]) != "" {
          assert tail[j] == ws[n + j];
        }
      }
      FoldEmitsRuns(tail, out + [FirstRun(ws, lastEnd)], lastEnd);
      NextRunOpened(ws, out, lastEnd);
    }
  }

  /** Folding through the first run and the speaker change that ends it
      leaves the next run opened, with the first run's utterance emitted. */
  lemma {:induction false} FoldAcrossBoundary(ws: seq<Word>, out: seq<Utterance>, lastEnd: int)
    requires ws != [] && SpeakerOf(ws[0]) != ""
    requires RunLength(ws) < |ws|
    ensures var tail := ws[RunLength(ws)..];
      Fold(Opened(ws, out), ws[1..]) == Fold(Opened(tail, out + [FirstRun(ws, lastEnd)]), tail[1..])
  {
    var n := RunLength(ws);
    var tail := ws[n..];
    var u := FirstRun(ws, lastEnd);
    var a := Opened(ws, out).(text := ConcatText(ws[..n]));
    FirstRunFolded(ws, out);
    RunClosed(ws, a, n);
    assert Utterance(Strip(a.text), SpeakerLabel(a.speaker), a.start, StartOf(ws[n])) == u;
    assert tail[1..] == ws[n + 1..];
  }

  /** Closing the first run and continuing with the next one. */
  lemma {:induction false} NextRunOpened(ws: seq<Word>, out: seq<Utterance>, lastEnd: int)
    requires ws != [] && SpeakerOf(ws[0]) != ""
    requires RunLength(ws) < |ws|
    requires var tail := ws[RunLength(ws)..]; var u := FirstRun(ws, lastEnd);
      Finish(Fold(Opened(tail, out + [u]), tail[1..]), lastEnd) == (out + [u]) + Runs(tail, lastEnd)
    ensures Finish(Fold(Opened(ws, out), ws[1..]), lastEnd) == out + Runs(ws, lastEnd)
  {
    var tail := ws[RunLength(ws)..];
    var u := FirstRun(ws, lastEnd);
    FoldAcrossBoundary(ws, out, lastEnd);
    RunsCons(ws, lastEnd);
    Regroup(Finish(Fold(Opened(ws, out), ws[1..]), lastEnd), Finish(Fold(Opened(tail, out + [u]), tail[1..]), lastEnd),
            out, u, Runs(tail, lastEnd), Runs(ws, lastEnd));
  }

  lemma {:induction false} Regroup(x: seq<Utterance>, y: seq<Utterance>, out: seq<Utterance>, u: Utterance,
                                   rest: seq<Utterance>, all: seq<Utterance>)
    requires x == y && y == (out + [u]) + rest && all == [u] + rest
    ensures x == out + all
  {
    assert out + ([u] + rest) == (out + [u]) + rest;
  }

  /** A run followed by a speaker change contributes its utterance and hands
      over to the next run. */
  lemma {:induction false} RunsCons(ws: seq<Word>, lastEnd: int)
    requires ws != [] && RunLength(ws) < |ws|
    ensures Runs(ws, lastEnd) == [FirstRun(ws, lastEnd)] + Runs(ws[RunLength(ws)..], lastEnd)
  {
  }

  /** When every word carries a non-empty speaker id, the fold is exactly the
      run description: consecutive words of one speaker form one utterance
      whose text is their texts concatenated and stripped, and each
      utterance ends where the next begins. */
  lemma {:induction false} GroupWordsIsRuns(ws: seq<Word>)
    requires forall j :: 0 <= j < |ws| ==> SpeakerOf(ws[j]) != ""
    ensures GroupWords(ws) == Runs(ws, if ws != [] then EndOf(ws[|ws| - 1]) else 0)
  {
    if ws != [] {
      var w := ws[0];
      assert Step(Initial, w) == Opened(ws, []) by {
        assert "" + TextOf(w) == TextOf(w);
      }
      FoldEmitsRuns(ws, [], EndOf(ws[|ws| - 1]));
    }
  }

  /** Run utterances are chained: each ends exactly where the next starts. */
  lemma {:induction false} RunsChained(ws: seq<Word>, lastEnd: int)
    ensures var r := Runs(ws, lastEnd);
      forall k :: 0 <= k < |r| - 1 ==> r[k].end == r[k + 1].start
    decreases |ws|
  {
    if ws != [] {
      var n := RunLength(ws);
      if n < |ws| {
        RunsChained(ws[n..], lastEnd);
        RunsStart(ws[n..], lastEnd);
      }
    }
  }

  /** The first run utterance starts at the first word. */
  lemma {:induction false} RunsStart(ws: seq<Word>, lastEnd: int)
    requires ws != []
    ensures var r := Runs(ws, lastEnd); r != [] ==> r[0].start == StartOf(ws[0])
  {
  }

  /** When the last word has text, the last utterance ends at that word's
      `end`. */
  lemma {:induction false} RunsLastEnd(ws: seq<Word>, lastEnd: int)
    requires ws != [] && TextOf(ws[|ws| - 1]) != ""
    ensures var r := Runs(ws, lastEnd); r != [] && r[|r| - 1].end == lastEnd
    decreases |ws|
  {
    var n := RunLength(ws);
    if n < |ws| {
      assert ws[n..][|ws[n..]| - 1] == ws[|ws| - 1];
      RunsLastEnd(ws[n..], lastEnd);
    } else {
      ConcatTextLastNonEmpty(ws);
      assert ws[..n] == ws;
    }
  }

  lemma {:induction false} ConcatTextLastNonEmpty(ws: seq<Word>)
    requires ws != [] && TextOf(ws[|ws| - 1]) != ""
    ensures ConcatText(ws) != ""
    decreases |ws|
  {
    if |ws| > 1 {
      ConcatTextLastNonEmpty(ws[1..]);
    }
  }

  /** The provider's `speaker_<n>` ids become their bare suffix. */
  lemma {:induction false} LabelOfProviderId(digits: string)
    requires AllDigits(digits)
    ensures SpeakerLabel("speaker_" + digits) == digits
  {
    var s := "speaker_" + digits;
    assert s[..8] == "speaker_";
    assert s[8..] == digits;
    forall i | 0 <= i && i + 8 <= |digits| ensures !OccursAt(digits, "speaker_", i) {
      assert digits[i..i + 8][0] == digits[i];
      assert IsDigit(digits[i]);
    }
  }
}
