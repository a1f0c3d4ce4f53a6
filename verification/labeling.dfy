/** The speaker-labelling panel: one example text per speaker taken from
    the initial transcript, the speakers ordered by the number in their id,
    one input row each, and the labels collected back from the inputs. */
module Labeling {
  import opened Wrappers
  import opened Text
  import opened Sorting
  import opened Render
  import Merge
  import Job

  // ---------------------------------------------------------------------
  // Example texts

  /** The `forEach` that fills `speakerExamples`: a speaker's entry is set
      while it is missing or the empty string. */
  function Examples(segs: seq<Segment>, acc: map<string, string>): map<string, string>
    decreases |segs|
  {
    if segs == [] then acc
    else
      var s := segs[0].speaker;
      var acc' := if s !in acc || acc[s] == "" then acc[s := segs[0].text] else acc;
      Examples(segs[1..], acc')
  }

  /** The first non-empty text of speaker `s`, or "" when there is none. */
  function FirstText(segs: seq<Segment>, s: string): string {
    if segs == [] then ""
    else if segs[0].speaker == s && segs[0].text != "" then segs[0].text
    else FirstText(segs[1..], s)
  }

  /** A speaker has an example exactly when it speaks, and the example is
      its first non-empty text: a later text never replaces a non-empty
      one. */
  lemma {:induction false} ExamplesAreFirstTexts(segs: seq<Segment>, acc: map<string, string>, s: string)
    ensures s in Examples(segs, acc) <==> s in acc || exists i :: 0 <= i < |segs| && segs[i].speaker == s
    ensures s in Examples(segs, acc) ==>
      Examples(segs, acc)[s] == if s in acc && acc[s] != "" then acc[s] else FirstText(segs, s)
    decreases |segs|
  {
    if segs != [] {
      var t := segs[0].speaker;
      var acc' := if t !in acc || acc[t] == "" then acc[t := segs[0].text] else acc;
      ExamplesAreFirstTexts(segs[1..], acc', s);
      assert forall i :: 0 < i < |segs| ==> segs[1..][i - 1] == segs[i];
      if (exists i :: 0 <= i < |segs| && segs[i].speaker == s) && t != s {
        var i :| 0 <= i < |segs| && segs[i].speaker == s;
        assert segs[1..][i - 1].speaker == s;
      }
    }
  }

  // ---------------------------------------------------------------------
  // Numeric speaker order

  /** `StrWhiteSpaceChar` of ECMAScript: white space and line terminators. */
  predicate IsJsSpace(c: char) {
    c == '\t' || c == '\n' || c == '\U{B}' || c == '\U{C}' || c == '\r' || c == ' '
    || c == '\U{A0}' || c == '\U{1680}' || ('\U{2000}' <= c <= '\U{200A}')
    || c == '\U{2028}' || c == '\U{2029}' || c == '\U{202F}' || c == '\U{205F}'
    || c == '\U{3000}' || c == '\U{FEFF}'
  }

  /** `s` without its leading white space. */
  function TrimJsStart(s: string): (r: string)
    ensures |r| <= |s| && r == s[|s| - |r|..]
    ensures forall i :: 0 <= i < |s| - |r| ==> IsJsSpace(s[i])
    ensures r == [] || !IsJsSpace(r[0])
  {
    if s != [] && IsJsSpace(s[0]) then TrimJsStart(s[1..]) else s
  }

  /** The number of leading decimal digits. */
  function DigitRun(s: string): (n: nat)
    ensures n <= |s|
    ensures forall i :: 0 <= i < n ==> IsDigit(s[i])
    ensures n < |s| ==> !IsDigit(s[n])
  {
    if s != [] && IsDigit(s[0]) then 1 + DigitRun(s[1..]) else 0
  }

  function DecimalValue(d: string): nat
    requires forall i :: 0 <= i < |d| ==> IsDigit(d[i])
  {
    if d == [] then 0
    else
      assert IsDigit(d[|d| - 1]);
      10 * DecimalValue(d[..|d| - 1]) + (d[|d| - 1] as int - '0' as int)
  }

  /** `parseInt(s, 10)`: leading white space, an optional sign, then the
      longest run of digits; `None` for `NaN`. */
  function ParseInt(s: string): (r: Option<int>)
    ensures r.None? <==> DigitRun(SignDropped(TrimJsStart(s))) == 0
  {
    var t := TrimJsStart(s);
    var u := SignDropped(t);
    var n := DigitRun(u);
    if n == 0 then None
    else
      var magnitude: int := DecimalValue(u[..n]);
      Some(if t != [] && t[0] == '-' then -magnitude else magnitude)
  }

  function SignDropped(t: string): string {
    if t != [] && (t[0] == '-' || t[0] == '+') then t[1..] else t
  }

  /** The sort key: `parseInt(id.replace(/^speaker_?/i, ''), 10) || 0`. */
  function SpeakerNumber(id: string): int {
    ParseInt(StripSpeakerPrefix(id)).GetOr(0)
  }

  lemma {:induction false} StripOfId(prefix: string, digits: string, underscore: bool)
    requires EqualsIgnoringCase(prefix, "speaker")
    requires AllDigits(digits)
    ensures StripSpeakerPrefix(prefix + (if underscore then "_" else "") + digits) == digits
  {
    var s := prefix + (if underscore then "_" else "") + digits;
    assert s[..7] == prefix;
    if underscore {
      assert s[7] == '_' && s[8..] == digits;
    } else {
      assert s[7..] == digits;
      assert s[7] == digits[0] && IsDigit(digits[0]);
    }
  }

  lemma {:induction false} ParseDigits(digits: string)
    requires AllDigits(digits)
    ensures ParseInt(digits) == Some(DecimalValue(digits))
  {
    assert IsDigit(digits[0]);
    assert !IsJsSpace(digits[0]) && digits[0] != '-' && digits[0] != '+';
    assert TrimJsStart(digits) == digits;
    assert SignDropped(digits) == digits;
    assert DigitRun(digits) == |digits|;
    assert digits[..|digits|] == digits;
  }

  /** White space followed by a string that does not start with white
      space trims to that string. */
  lemma {:induction false} TrimLeadingSpace(ws: string, t: string)
    requires forall i :: 0 <= i < |ws| ==> IsJsSpace(ws[i])
    requires t == [] || !IsJsSpace(t[0])
    ensures TrimJsStart(ws + t) == t
    decreases |ws|
  {
    if ws != [] {
      assert (ws + t)[1..] == ws[1..] + t;
      TrimLeadingSpace(ws[1..], t);
    } else {
      assert ws + t == t;
    }
  }

  /** The digit run of digits followed by a non-digit is those digits. */
  lemma {:induction false} DigitRunOf(d: string, rest: string)
    requires forall i :: 0 <= i < |d| ==> IsDigit(d[i])
    requires rest == [] || !IsDigit(rest[0])
    ensures DigitRun(d + rest) == |d|
    decreases |d|
  {
    if d != [] {
      assert (d + rest)[1..] == d[1..] + rest;
      DigitRunOf(d[1..], rest);
    } else {
      assert d + rest == rest;
    }
  }

  /** `parseInt` skips leading white space, honours one sign, reads the
      digits and ignores whatever follows them. */
  lemma {:induction false} ParseIntOf(ws: string, sign: string, d: string, rest: string)
    requires forall i :: 0 <= i < |ws| ==> IsJsSpace(ws[i])
    requires sign == "" || sign == "+" || sign == "-"
    requires AllDigits(d)
    requires rest == [] || !IsDigit(rest[0])
    ensures var m := DecimalValue(d) as int;
      ParseInt(ws + (sign + d + rest)) == Some(if sign == "-" then -m else m)
  {
    var t := sign + d + rest;
    SignedStart(sign, d, rest);
    TrimLeadingSpace(ws, t);
    SignedDigits(sign, d, rest);
    ParseIntOfTrimmed(ws + t, t, d, sign == "-");
  }

  /** `ParseInt` reads only the trimmed string: its sign and its leading
      digit run. */
  lemma {:induction false} ParseIntOfTrimmed(s: string, t: string, d: string, negative: bool)
    requires TrimJsStart(s) == t
    requires AllDigits(d)
    requires DigitRun(SignDropped(t)) == |d| && SignDropped(t)[..|d|] == d
    requires (t != [] && t[0] == '-') <==> negative
    ensures var m := DecimalValue(d) as int;
      ParseInt(s) == Some(if negative then -m else m)
  {
  }

  /** Dropping the sign of a signed digit string leaves the digits and what
      follows them. */
  lemma {:induction false} SignedDigits(sign: string, d: string, rest: string)
    requires sign == "" || sign == "+" || sign == "-"
    requires AllDigits(d)
    requires rest == [] || !IsDigit(rest[0])
    ensures var u := SignDropped(sign + d + rest);
      DigitRun(u) == |d| && u[..|d|] == d
  {
    var t := sign + d + rest;
    var u := SignDropped(t);
    assert IsDigit(d[0]);
    if sign == "" {
      assert t == d + rest;
      assert u == d + rest;
    } else {
      assert t == [sign[0]] + (d + rest);
      assert u == d + rest;
    }
    DigitRunOf(d, rest);
    assert u[..|d|] == d;
  }

  lemma {:induction false} SignedStart(sign: string, d: string, rest: string)
    requires sign == "" || sign == "+" || sign == "-"
    requires AllDigits(d)
    ensures var t := sign + d + rest; t != [] && !IsJsSpace(t[0]) && (t[0] == '-' <==> sign == "-")
  {
    var t := sign + d + rest;
    assert IsDigit(d[0]);
    if sign == "" {
      assert t[0] == d[0];
    } else {
      assert t[0] == sign[0];
    }
  }

  /** Ids of both accepted shapes sort by their number. */
  lemma {:induction false} SpeakerNumberOfId(prefix: string, digits: string, underscore: bool)
    requires EqualsIgnoringCase(prefix, "speaker")
    requires AllDigits(digits)
    ensures SpeakerNumber(prefix + (if underscore then "_" else "") + digits) == DecimalValue(digits)
  {
    StripOfId(prefix, digits, underscore);
    ParseDigits(digits);
  }

  /** Speakers in ascending number order; a stable sort, so equal numbers
      (every unparsable id counts as 0) keep their order. The sort works on
      a copy: the result is a permutation of the input. */
  function OrderSpeakers(speakers: seq<string>): (r: seq<string>)
    ensures multiset(r) == multiset(speakers)
    ensures forall i, j :: 0 <= i < j < |r| ==> SpeakerNumber(r[i]) <= SpeakerNumber(r[j])
    ensures forall k :: WithKey(r, SpeakerNumber, k) == WithKey(speakers, SpeakerNumber, k)
  {
    SortBy(speakers, SpeakerNumber)
  }

  /** Unlike the string order the server uses for window 0, ten sorts after
      two here. */
  lemma {:induction false} NumericNotLexical()
    ensures OrderSpeakers(["speaker_10", "speaker_2"]) == ["speaker_2", "speaker_10"]
  {
    NumberOfTen();
    NumberOfTwo();
    SortPair("speaker_10", "speaker_2", SpeakerNumber);
  }

  lemma {:induction false} SortPair<T>(a: T, b: T, key: T -> int)
    requires key(a) > key(b)
    ensures SortBy([a, b], key) == [b, a]
  {
    var one := SortBy([b], key);
    assert [b][1..] == [];
    assert one == Insert(b, [], key) == [b];
    assert [a, b][1..] == [b];
    assert SortBy([a, b], key) == Insert(a, one, key);
    assert Insert(a, [b], key) == [b] + Insert(a, [], key) == [b, a];
  }

  lemma {:induction false} NumberOfTen()
    ensures SpeakerNumber("speaker_10") == 10
  {
    assert DecimalValue("10") == 10 by {
      assert "10"[..1] == "1";
      assert DecimalValue("1") == 1 by {
        assert "1"[..0] == "";
      }
    }
    assert "speaker_10" == "speaker" + "_" + "10";
    SpeakerNumberOfId("speaker", "10", true);
  }

  lemma {:induction false} NumberOfTwo()
    ensures SpeakerNumber("speaker_2") == 2
  {
    assert DecimalValue("2") == 2 by {
      assert "2"[..0] == "";
    }
    assert "speaker_2" == "speaker" + "_" + "2";
    SpeakerNumberOfId("speaker", "2", true);
  }

  // ---------------------------------------------------------------------
  // Rows

  const Palette: seq<string> := [
    "#4361ee", "#3a0ca3", "#7209b7", "#f72585", "#4cc9f0",
    "#4895ef", "#560bad", "#b5179e", "#f15bb5", "#00b4d8"]

  /** One input row of the panel. */
  datatype Row = Row(speaker: string, colour: string, inputId: string, value: string, example: string)

  /** `speakerExamples[speaker] || ''`. */
  function ExampleFor(examples: map<string, string>, s: string): string {
    if s in examples then examples[s] else ""
  }

  function RowAt(ordered: seq<string>, examples: map<string, string>, i: nat): Row
    requires i < |ordered|
  {
    Row(ordered[i], Palette[i % |Palette|], "speaker-" + ordered[i], "Speaker " + ordered[i],
        TruncateText(Some(ExampleFor(examples, ordered[i])), 100))
  }

  /** `loadSpeakersForLabeling`: no panel without speakers; otherwise one
      row per speaker in numeric order, coloured by position modulo the ten
      palette colours, prefilled with "Speaker " and the id. */
  function LabelingRows(speakers: seq<string>, transcript: seq<Segment>): (r: Option<seq<Row>>)
    ensures r.None? <==> speakers == []
    ensures r.Some? ==> |r.value| == |speakers|
    ensures r.Some? ==> multiset(RowSpeakers(r.value)) == multiset(speakers)
    ensures r.Some? ==> forall i :: 0 <= i < |r.value| ==>
      && r.value[i].colour == Palette[i % 10]
      && r.value[i].inputId == "speaker-" + r.value[i].speaker
      && r.value[i].value == "Speaker " + r.value[i].speaker
    ensures r.Some? ==> forall i, j :: 0 <= i < j < |r.value| ==>
      SpeakerNumber(r.value[i].speaker) <= SpeakerNumber(r.value[j].speaker)
  {
    if speakers == [] then None
    else
      var ordered := OrderSpeakers(speakers);
      var examples := Examples(transcript, map[]);
      var rows := seq(|ordered|, i requires 0 <= i < |ordered| => RowAt(ordered, examples, i));
      assert RowSpeakers(rows) == ordered;
      Some(rows)
  }

  function RowSpeakers(rows: seq<Row>): (r: seq<string>)
    ensures |r| == |rows| && forall i :: 0 <= i < |rows| ==> r[i] == rows[i].speaker
  {
    seq(|rows|, i requires 0 <= i < |rows| => rows[i].speaker)
  }

  /** Each row shows its speaker's first non-empty text, truncated to 100
      characters. */
  lemma {:induction false} RowExample(speakers: seq<string>, transcript: seq<Segment>, i: nat)
    requires speakers != []
    requires i < |LabelingRows(speakers, transcript).value|
    ensures var row := LabelingRows(speakers, transcript).value[i];
      row.example == TruncateText(Some(FirstText(transcript, row.speaker)), 100)
  {
    var row := LabelingRows(speakers, transcript).value[i];
    ExamplesAreFirstTexts(transcript, map[], row.speaker);
    var s := row.speaker;
    if s !in Examples(transcript, map[]) {
      FirstTextAbsent(transcript, s);
    }
  }

  lemma {:induction false} FirstTextAbsent(segs: seq<Segment>, s: string)
    requires forall i :: 0 <= i < |segs| ==> segs[i].speaker != s
    ensures FirstText(segs, s) == ""
    decreases |segs|
  {
    if segs != [] {
      assert forall i :: 0 < i < |segs| ==> segs[1..][i - 1] == segs[i];
      FirstTextAbsent(segs[1..], s);
    }
  }

  // ---------------------------------------------------------------------
  // Collecting the labels

  /** A text input with its `id` and current `value`. */
  datatype Input = Input(id: string, value: string)

  predicate StartsWith(s: string, prefix: string) {
    |prefix| <= |s| && s[..|prefix|] == prefix
  }

  /** The `forEach` over `[id^="speaker-"]`: the key is the id without its
      "speaker-" prefix, and an empty value falls back to "Speaker " and the
      key. A later input with the same key wins. */
  function CollectLabels(inputs: seq<Input>, acc: map<string, string>): (r: map<string, string>)
    ensures (forall k :: k in acc ==> acc[k] != "") ==> forall k :: k in r ==> r[k] != ""
    ensures acc.Keys <= r.Keys
    decreases |inputs|
  {
    if inputs == [] then acc
    else
      var input := inputs[0];
      var acc' :=
        if StartsWith(input.id, "speaker-") then
          var key := input.id[8..];
          acc[key := if input.value == "" then "Speaker " + key else input.value]
        else acc;
      CollectLabels(inputs[1..], acc')
  }

  /** `input` sets the label of key `k`: its id is "speaker-" followed by `k`. */
  predicate Writes(input: Input, k: string) {
    StartsWith(input.id, "speaker-") && input.id[8..] == k
  }

  /** The collected keys are the keys already present and the ids of the
      "speaker-" inputs without that prefix. */
  lemma {:induction false} CollectLabelsKeys(inputs: seq<Input>, acc: map<string, string>, k: string)
    ensures k in CollectLabels(inputs, acc) <==> k in acc || exists i :: 0 <= i < |inputs| && Writes(inputs[i], k)
    decreases |inputs|
  {
    if inputs != [] {
      var input := inputs[0];
      var acc' :=
        if StartsWith(input.id, "speaker-") then
          acc[input.id[8..] := if input.value == "" then "Speaker " + input.id[8..] else input.value]
        else acc;
      assert CollectLabels(inputs, acc) == CollectLabels(inputs[1..], acc');
      assert k in acc' <==> k in acc || Writes(input, k);
      CollectLabelsKeys(inputs[1..], acc', k);
      if exists i :: 0 <= i < |inputs| && Writes(inputs[i], k) {
        var i :| 0 <= i < |inputs| && Writes(inputs[i], k);
        if i > 0 {
          assert inputs[1..][i - 1] == inputs[i];
        }
      }
      if exists i :: 0 <= i < |inputs[1..]| && Writes(inputs[1..][i], k) {
        var i :| 0 <= i < |inputs[1..]| && Writes(inputs[1..][i], k);
        assert inputs[i + 1] == inputs[1..][i];
      }
    }
  }

  /** A key no input writes keeps the label it had. */
  lemma {:induction false} CollectLabelsUntouched(inputs: seq<Input>, acc: map<string, string>, k: string)
    requires forall i :: 0 <= i < |inputs| ==> !Writes(inputs[i], k)
    requires k in acc
    ensures k in CollectLabels(inputs, acc) && CollectLabels(inputs, acc)[k] == acc[k]
    decreases |inputs|
  {
    if inputs != [] {
      var input := inputs[0];
      var acc' :=
        if StartsWith(input.id, "speaker-") then
          acc[input.id[8..] := if input.value == "" then "Speaker " + input.id[8..] else input.value]
        else acc;
      assert CollectLabels(inputs, acc) == CollectLabels(inputs[1..], acc');
      assert !Writes(inputs[0], k);
      assert k in acc' && acc'[k] == acc[k];
      assert forall i :: 0 <= i < |inputs[1..]| ==> inputs[1..][i] == inputs[i + 1];
      CollectLabelsUntouched(inputs[1..], acc', k);
    }
  }

  /** The label of a key is set by the last input that writes it: that
      input's value, or "Speaker " and the key when the value is empty (a
      cleared box). */
  lemma {:induction false} CollectLabelsLastWriter(inputs: seq<Input>, acc: map<string, string>, k: string, i: nat)
    requires i < |inputs| && Writes(inputs[i], k)
    requires forall j :: i < j < |inputs| ==> !Writes(inputs[j], k)
    ensures k in CollectLabels(inputs, acc)
    ensures CollectLabels(inputs, acc)[k] == if inputs[i].value == "" then "Speaker " + k else inputs[i].value
    decreases i
  {
    var input := inputs[0];
    var acc' :=
      if StartsWith(input.id, "speaker-") then
        acc[input.id[8..] := if input.value == "" then "Speaker " + input.id[8..] else input.value]
      else acc;
    assert CollectLabels(inputs, acc) == CollectLabels(inputs[1..], acc');
    assert forall j :: 0 <= j < |inputs[1..]| ==> inputs[1..][j] == inputs[j + 1];
    if i == 0 {
      assert k in acc' && acc'[k] == if input.value == "" then "Speaker " + k else input.value;
      CollectLabelsUntouched(inputs[1..], acc', k);
    } else {
      CollectLabelsLastWriter(inputs[1..], acc', k, i - 1);
    }
  }

  /** A user who clears the box of speaker `k` and submits sends the default
      label "Speaker " and `k`; an edited box sends its text. */
  lemma {:induction false} ClearedAndEdited()
    ensures CollectLabels([Input("speaker-A", "")], map[]) == map["A" := "Speaker A"]
    ensures CollectLabels([Input("speaker-A", "Alice")], map[]) == map["A" := "Alice"]
  {
    var x := Input("speaker-A", "");
    assert StartsWith(x.id, "speaker-") && x.id[8..] == "A";
    assert "Speaker " + x.id[8..] == "Speaker A";
    assert [x][1..] == [];
    assert CollectLabels([x], map[]) == CollectLabels([], map[]["A" := "Speaker A"]);
    var y := Input("speaker-A", "Alice");
    assert StartsWith(y.id, "speaker-") && y.id[8..] == "A";
    assert [y][1..] == [];
    assert CollectLabels([y], map[]) == CollectLabels([], map[]["A" := "Alice"]);
  }

  /** The inputs of the rows, unedited. */
  function InputsOf(rows: seq<Row>): (r: seq<Input>)
    ensures |r| == |rows| && forall i :: 0 <= i < |rows| ==> r[i] == Input(rows[i].inputId, rows[i].value)
  {
    seq(|rows|, i requires 0 <= i < |rows| => Input(rows[i].inputId, rows[i].value))
  }

  predicate Prefilled(rows: seq<Row>) {
    forall i :: 0 <= i < |rows| ==>
      rows[i].inputId == "speaker-" + rows[i].speaker && rows[i].value == "Speaker " + rows[i].speaker
  }

  lemma {:induction false} CollectPrefilled(rows: seq<Row>, acc: map<string, string>, k: string)
    requires Prefilled(rows)
    ensures var r := CollectLabels(InputsOf(rows), acc);
      && (k in r <==> k in acc || k in RowSpeakers(rows))
      && (k in RowSpeakers(rows) ==> r[k] == "Speaker " + k)
      && (k !in RowSpeakers(rows) && k in acc ==> r[k] == acc[k])
    decreases |rows|
  {
    if rows != [] {
      var s := rows[0].speaker;
      CollectFirstRow(rows, acc);
      assert Prefilled(rows[1..]) by {
        assert forall i :: 0 < i < |rows| ==> rows[1..][i - 1] == rows[i];
      }
      CollectPrefilled(rows[1..], acc[s := "Speaker " + s], k);
      RowSpeakersCons(rows);
    }
  }

  /** The first prefilled row puts its default label into the map. */
  lemma {:induction false} CollectFirstRow(rows: seq<Row>, acc: map<string, string>)
    requires rows != [] && Prefilled(rows)
    ensures var s := rows[0].speaker;
      CollectLabels(InputsOf(rows), acc) == CollectLabels(InputsOf(rows[1..]), acc[s := "Speaker " + s])
  {
    var s := rows[0].speaker;
    var inputs := InputsOf(rows);
    var input := inputs[0];
    assert input.id == "speaker-" + s && StartsWith(input.id, "speaker-");
    assert input.id[8..] == s;
    assert input.value == "Speaker " + s != "";
    assert inputs[1..] == InputsOf(rows[1..]);
  }

  lemma {:induction false} RowSpeakersCons(rows: seq<Row>)
    requires rows != []
    ensures forall t :: t in RowSpeakers(rows) <==> t == rows[0].speaker || t in RowSpeakers(rows[1..])
  {
    assert RowSpeakers(rows) == [rows[0].speaker] + RowSpeakers(rows[1..]);
  }

  lemma {:induction false} CollectUnedited(rows: seq<Row>, speakers: seq<string>)
    requires Prefilled(rows)
    requires forall s :: s in RowSpeakers(rows) <==> s in speakers
    ensures CollectLabels(InputsOf(rows), map[]) == map s | s in speakers :: "Speaker " + s
  {
    var labels := CollectLabels(InputsOf(rows), map[]);
    var expected := map s | s in speakers :: "Speaker " + s;
    forall k ensures (k in labels <==> k in expected) && (k in labels ==> labels[k] == expected[k]) {
      CollectPrefilled(rows, map[], k);
    }
  }

  /** Submitting the panel unedited sends "Speaker " and the id for every
      speaker; the map is non-empty, so the server accepts it, and it
      displays every id exactly as the server's default label would. */
  lemma {:induction false} UneditedRoundTrip(speakers: seq<string>, transcript: seq<Segment>, job: Job.Job)
    requires speakers != []
    ensures var labels := CollectLabels(InputsOf(LabelingRows(speakers, transcript).value), map[]);
      && labels == (map s | s in speakers :: "Speaker " + s)
      && Job.ProcessTranscript(job, labels).1.code == 202
      && forall c :: Merge.Display(labels, c) == Merge.Display(map[], c)
  {
    var rows := LabelingRows(speakers, transcript).value;
    assert forall s :: s in RowSpeakers(rows) <==> s in speakers by {
      assert forall s :: s in RowSpeakers(rows) <==> s in multiset(RowSpeakers(rows));
    }
    CollectUnedited(rows, speakers);
    var labels := map s | s in speakers :: "Speaker " + s;
    assert speakers[0] in labels;
  }
}
