/** `split_audio` of the ffmpeg variant. The ffprobe duration query and its
    seconds-to-milliseconds conversion are left out (the duration is an
    input), and so are the ffmpeg subprocess calls; whether ffmpeg is
    installed is an input too. */
module AudioAlternative {
  import opened Wrappers
  import opened Windower

  method SplitAudio(ffmpegAvailable: bool, totalDuration: nat, segmentDuration: int, overlapDuration: int)
    returns (r: Result<seq<Window>, SplitError>)
    ensures !ffmpegAvailable ==> r == Failure(FfmpegMissing)
    ensures ffmpegAvailable ==> (r.Failure? <==> segmentDuration == overlapDuration)
    ensures ffmpegAvailable && r.Failure? ==> r.error == ZeroDivision
    ensures r.Success? ==> r.value == Windows(totalDuration, segmentDuration, overlapDuration)
  {
    if !ffmpegAvailable {
      return Failure(FfmpegMissing);
    }
    var effective := segmentDuration - overlapDuration;
    if effective == 0 {
      return Failure(ZeroDivision);
    }
    var numSegments := Max(1, FloorDiv(totalDuration + effective - 1, effective));
    var segments: seq<Window> := [];
    var i: nat := 0;
    while i < numSegments
      invariant i <= numSegments
      invariant |segments| == i
      invariant forall j :: 0 <= j < i ==> segments[j] == WindowAt(j, totalDuration, segmentDuration, overlapDuration)
    {
      var start := i * effective;
      var end := Min(start + segmentDuration, totalDuration);
      if i > 0 {
        start := Max(0, start - overlapDuration);
      }
      segments := segments + [Window(start, end, i)];
      i := i + 1;
    }
    return Success(segments);
  }
}
