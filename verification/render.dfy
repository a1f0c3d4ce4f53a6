/** The browser-side transcript rendering: speaker-label normalisation, the
    HTML of `formatTranscript`, the plain-text export shared by the copy and
    download buttons, and `truncateText`. The DOM, the clipboard and the
    downloaded file are left out; each function returns the string the
    browser code builds. */
module Render {
  import opened Wrappers
  import opened Text

  /** The two fields of a transcript entry the browser reads. */
  datatype Segment = Segment(speaker: string, text: string)

  /** `s` starts with "speaker" in any letter case. */
  predicate HasSpeakerPrefix(s: string) {
    |s| >= 7 && EqualsIgnoringCase(s[..7], "speaker")
  }

  /** `s.replace(/^speaker_?/i, '')`: the optional underscore is taken
      greedily. */
  function StripSpeakerPrefix(s: string): (r: string)
    ensures |r| <= |s|
    ensures !HasSpeakerPrefix(s) ==> r == s
  {
    if !HasSpeakerPrefix(s) then s
    else if |s| > 7 && s[7] == '_' then s[8..]
    else s[7..]
  }

  /** `/^[0-9]+$/.test(s) || /^speaker_?[0-9]+$/i.test(s)`. */
  predicate IsSpeakerNumber(s: string) {
    AllDigits(s) || (HasSpeakerPrefix(s) && AllDigits(StripSpeakerPrefix(s)))
  }

  /** A bare number or a "speaker"-number id becomes "Speaker " and the
      number; any other label is kept. */
  function NormaliseLabel(s: string): string {
    if IsSpeakerNumber(s) then "Speaker " + StripSpeakerPrefix(s) else s
  }

  /** Both accepted shapes give "Speaker " and their digits. */
  lemma {:induction false} NormaliseLabelOfNumber(prefix: string, digits: string, underscore: bool)
    requires prefix == "" || EqualsIgnoringCase(prefix, "speaker")
    requires AllDigits(digits)
    requires prefix == "" ==> !underscore
    ensures NormaliseLabel(prefix + (if underscore then "_" else "") + digits) == "Speaker " + digits
  {
    var s := prefix + (if underscore then "_" else "") + digits;
    if prefix == "" {
      assert s == digits;
      assert IsDigit(s[0]) && AsciiLower(s[0]) != AsciiLower("speaker"[0]);
      assert !HasSpeakerPrefix(s);
    } else {
      assert s[..7] == prefix;
      if underscore {
        assert s[7] == '_' && s[8..] == digits;
      } else {
        assert s[7..] == digits;
        assert s[7] == digits[0] && IsDigit(digits[0]);
      }
    }
  }

  /** "Speaker " followed by anything is neither a number nor a
      "speaker"-number, because of the space. */
  lemma {:induction false} DisplayedIsNotNumber(rest: string)
    ensures !IsSpeakerNumber("Speaker " + rest)
  {
    var s := "Speaker " + rest;
    assert s[0] == 'S' && !IsDigit(s[0]);
    assert s[7] == ' ';
    if HasSpeakerPrefix(s) {
      assert StripSpeakerPrefix(s) == s[7..];
      assert !IsDigit(s[7..][0]);
    }
  }

  /** Normalisation changes a label exactly when it is a number or a
      "speaker"-number id. */
  lemma {:induction false} NormaliseChangesIff(s: string)
    ensures NormaliseLabel(s) != s <==> IsSpeakerNumber(s)
  {
    if IsSpeakerNumber(s) {
      DisplayedIsNotNumber(StripSpeakerPrefix(s));
    }
  }

  /** Normalising twice is normalising once. */
  lemma {:induction false} NormaliseIdempotent(s: string)
    ensures NormaliseLabel(NormaliseLabel(s)) == NormaliseLabel(s)
  {
    if IsSpeakerNumber(s) {
      DisplayedIsNotNumber(StripSpeakerPrefix(s));
    }
  }

  // ---------------------------------------------------------------------
  // The shared block structure

  /** One transcript entry as displayed: a speaker header or none, then the
      text. */
  datatype Block = Block(header: Option<string>, text: string)

  /** The label the header test compares against: `prev` before the first
      entry, the previous entry's normalised label after it. */
  function PreviousLabel(segs: seq<Segment>, prev: string, i: nat): string
    requires i < |segs|
  {
    if i == 0 then prev else NormaliseLabel(segs[i - 1].speaker)
  }

  /** Entry `i` gets a header exactly when its normalised label differs from
      the previous one. */
  function BlockAt(segs: seq<Segment>, prev: string, i: nat): Block
    requires i < |segs|
  {
    var shown := NormaliseLabel(segs[i].speaker);
    Block(if shown != PreviousLabel(segs, prev, i) then Some(shown) else None, segs[i].text)
  }

  function Blocks(segs: seq<Segment>, prev: string): seq<Block> {
    seq(|segs|, i requires 0 <= i < |segs| => BlockAt(segs, prev, i))
  }

  lemma {:induction false} BlocksCons(segs: seq<Segment>, prev: string)
    requires segs != []
    ensures var shown := NormaliseLabel(segs[0].speaker);
      Blocks(segs, prev) == [Block(if shown != prev then Some(shown) else None, segs[0].text)] + Blocks(segs[1..], shown)
  {
    var shown := NormaliseLabel(segs[0].speaker);
    var b := Blocks(segs, prev);
    var tail := Blocks(segs[1..], shown);
    assert |b| == 1 + |tail|;
    forall i | 1 <= i < |b| ensures b[i] == tail[i - 1] {
      assert PreviousLabel(segs, prev, i) == PreviousLabel(segs[1..], shown, i - 1);
    }
  }

  function BlockHtml(b: Block): string {
    (if b.header.Some? then "<div class=\"speaker\">" + b.header.value + "</div>" else "")
      + "<div class=\"transcript-text\">" + b.text + "</div>"
  }

  function BlockPlain(b: Block): string {
    (if b.header.Some? then "\n" + b.header.value + ":\n" else "") + b.text + "\n"
  }

  function HtmlOf(bs: seq<Block>): string {
    if bs == [] then "" else BlockHtml(bs[0]) + HtmlOf(bs[1..])
  }

  function PlainOf(bs: seq<Block>): string {
    if bs == [] then "" else BlockPlain(bs[0]) + PlainOf(bs[1..])
  }

  // ---------------------------------------------------------------------
  // The loops as written

  /** The `forEach` of `formatTranscript` with `current` as
      `currentSpeaker`. */
  function HtmlLoop(segs: seq<Segment>, current: string): (r: string)
    ensures r == HtmlOf(Blocks(segs, current))
  {
    if segs == [] then ""
    else
      var shown := NormaliseLabel(segs[0].speaker);
      var header := if shown != current then "<div class=\"speaker\">" + shown + "</div>" else "";
      var next := if shown != current then shown else current;
      BlocksCons(segs, current);
      header + "<div class=\"transcript-text\">" + segs[0].text + "</div>" + HtmlLoop(segs[1..], next)
  }

  /** `formatTranscript`: a missing or empty transcript gives the
      placeholder paragraph. */
  function FormatTranscript(transcript: Option<seq<Segment>>): (r: string)
    ensures transcript.None? || transcript.value == [] ==> r == "<p>No transcript data found.</p>"
    ensures transcript.Some? && transcript.value != [] ==> r == HtmlOf(Blocks(transcript.value, ""))
  {
    if transcript.None? || transcript.value == [] then "<p>No transcript data found.</p>"
    else HtmlLoop(transcript.value, "")
  }

  /** The `forEach` of the export with `current` as `currentSpeaker`. */
  function PlainLoop(segs: seq<Segment>, current: string): (r: string)
    ensures r == PlainOf(Blocks(segs, current))
  {
    if segs == [] then ""
    else
      var shown := NormaliseLabel(segs[0].speaker);
      var header := if shown != current then "\n" + shown + ":\n" else "";
      var next := if shown != current then shown else current;
      BlocksCons(segs, current);
      header + segs[0].text + "\n" + PlainLoop(segs[1..], next)
  }

  /** The transcript both export buttons use: the final one unless it is
      empty, otherwise the initial one. */
  function ExportSource(final: seq<Segment>, initial: seq<Segment>): (r: seq<Segment>)
    ensures final != [] ==> r == final
    ensures final == [] ==> r == initial
  {
    if final == [] then initial else final
  }

  /** The text `copyTranscript` puts on the clipboard and
      `downloadTranscript` saves; both build it with the same loop. */
  function ExportText(final: seq<Segment>, initial: seq<Segment>): (r: string)
    ensures r == PlainOf(Blocks(ExportSource(final, initial), ""))
  {
    PlainLoop(ExportSource(final, initial), "")
  }

  /** The first entry always gets a header unless its label is empty. */
  lemma {:induction false} FirstHeader(segs: seq<Segment>)
    requires segs != []
    ensures Blocks(segs, "")[0].header.Some? <==> NormaliseLabel(segs[0].speaker) != ""
  {
  }

  /** A run of entries of one speaker shows one header: headers are exactly
      the label changes. */
  lemma {:induction false} HeaderIffChange(segs: seq<Segment>, i: nat)
    requires 0 < i < |segs|
    ensures Blocks(segs, "")[i].header.Some?
        <==> NormaliseLabel(segs[i].speaker) != NormaliseLabel(segs[i - 1].speaker)
  {
  }

  /** `truncateText`. JavaScript's `substring` clamps a negative end to 0. */
  function TruncateText(text: Option<string>, maxLength: int): (r: string)
    ensures text.None? || text.value == "" ==> r == ""
    ensures text.Some? && |text.value| <= maxLength ==> r == text.value
    ensures text.Some? && text.value != "" && |text.value| > maxLength ==>
      |r| == (if maxLength < 0 then 0 else maxLength) + 3
      && r[..|r| - 3] <= text.value && r[|r| - 3..] == "..."
  {
    if text.None? || text.value == "" then ""
    else if |text.value| <= maxLength then text.value
    else text.value[..if maxLength < 0 then 0 else maxLength] + "..."
  }

  /** A truncated text fits the limit plus the ellipsis, so truncating it
      again with that allowance changes nothing. */
  lemma {:induction false} TruncateSettles(text: Option<string>, maxLength: nat)
    ensures var once := TruncateText(text, maxLength);
      TruncateText(Some(once), maxLength + 3) == once
  {
  }
}
