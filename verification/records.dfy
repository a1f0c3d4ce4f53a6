/** The transcript records passed between the stages. */
module Records {

  /** One utterance as the transcription step returns it, with times local
      to its window. */
  datatype Utterance = Utterance(text: string, speaker: string, start: int, end: int)

  /** One utterance on the recording's absolute time line, tagged with the
      position of the window it came from (`segment_index`). The same shape
      serves the flattened list and the final transcript entries. */
  datatype Entry = Entry(text: string, speaker: string, start: int, end: int, segmentIndex: nat)
}
