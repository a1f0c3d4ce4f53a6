/** `split_audio` of the pydub variant. Decoding and exporting the audio are
    left out: the duration in milliseconds is an input and each window is
    described by its times and index only. */
module Audio {
  import opened Wrappers
  import opened Windower
  import Config

  method SplitAudio(totalDuration: nat, segmentDuration: int, overlapDuration: int)
    returns (r: Result<seq<Window>, SplitError>)
    ensures r.Failure? <==> segmentDuration == overlapDuration
    ensures r.Failure? ==> r.error == ZeroDivision
    ensures r.Success? ==> r.value == Windows(totalDuration, segmentDuration, overlapDuration)
  {
    var effective := segmentDuration - overlapDuration;
    if effective == 0 {
      return Failure(ZeroDivision);
    }
    var numSegments := Max(1, FloorDiv(totalDuration + effective - 1, effective));
    var segments: seq<Window> := [];
    var i: nat := 0;
    while i < numSegments
      invariant i <= numSegments
      invariant |segments| == i
      invariant forall j :: 0 <= j < i ==> segments[j] == WindowAt(j, totalDuration, segmentDuration, overlapDuration)
    {
      var start := i * effective;
      var end := Min(start + segmentDuration, totalDuration);
      if i > 0 {
        start := Max(0, start - overlapDuration);
      }
      segments := segments + [Window(start, end, i)];
      i := i + 1;
    }
    return Success(segments);
  }

  /** With the configured eight-minute windows and ten-second overlap, a
      recording of 1,000,000 ms is cut into exactly these three windows. */
  lemma {:induction false} ConfiguredWindows()
    ensures Windows(1000000, Config.SegmentDuration, Config.OverlapDuration)
      == [Window(0, 480000, 0), Window(460000, 950000, 1), Window(930000, 1000000, 2)]
  {
    assert WindowCount(1000000, Config.SegmentDuration, Config.OverlapDuration) == 3;
  }
}
