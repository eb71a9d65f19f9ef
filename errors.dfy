/**
  The exceptions that cross the backend's functions, and the mapping that
  `get_video_info` applies to any failure of the caption download: an ordered
  substring test on the failure's message, first match wins, always status 400.
 */
module Errors {
  import opened Strings

  /** The two exception classes the endpoint tells apart: `ValueError` and FastAPI's `HTTPException`. */
  datatype Exception =
    | ValueError(message: string)
    | HttpException(statusCode: int, detail: string)

  const NoElementFound := "no element found"
  const VideoUnavailable := "Video unavailable"
  const TranscriptsDisabled := "TranscriptsDisabled"

  // The fixed details of the first three cases. Each sentence is the concatenation of two
  // literals: the proof that the details differ from each other and from the fallback reads the
  // first character of each, which the verifier does directly only on a short literal.
  const NoTranscriptsDetail := "This video has no " + "available transcripts or captions."
  const UnavailableDetail := "This video is " + "unavailable or private."
  const DisabledDetail := "Transcripts are " + "disabled for this video."
  const FetchErrorPrefix := "Error fetching transcript: "

  /** The `HTTPException` that `get_video_info` raises when fetching the captions failed with `message`. */
  function ClassifyFetchError(message: string): (e: Exception)
    ensures e.HttpException? && e.statusCode == 400
  {
    if Contains(message, NoElementFound) then HttpException(400, NoTranscriptsDetail)
    else if Contains(message, VideoUnavailable) then HttpException(400, UnavailableDetail)
    else if Contains(message, TranscriptsDisabled) then HttpException(400, DisabledDetail)
    else HttpException(400, FetchErrorPrefix + message)
  }

  /** The four details are told apart by the tests in order, in both directions, and the
      fallback detail carries the original message after its fixed prefix. */
  lemma ClassificationOrder(message: string)
    ensures ClassifyFetchError(message).detail == NoTranscriptsDetail
      <==> Contains(message, NoElementFound)
    ensures ClassifyFetchError(message).detail == UnavailableDetail
      <==> !Contains(message, NoElementFound) && Contains(message, VideoUnavailable)
    ensures ClassifyFetchError(message).detail == DisabledDetail
      <==> !Contains(message, NoElementFound) && !Contains(message, VideoUnavailable)
           && Contains(message, TranscriptsDisabled)
    ensures ClassifyFetchError(message).detail == FetchErrorPrefix + message
      <==> !Contains(message, NoElementFound) && !Contains(message, VideoUnavailable)
           && !Contains(message, TranscriptsDisabled)
  {
    var fallback := FetchErrorPrefix + message;
    assert fallback[0] == 'E';
    assert NoTranscriptsDetail[0] == 'T';
    assert UnavailableDetail[0] == 'T';
    assert DisabledDetail[0] == 'T';
    assert |NoTranscriptsDetail| == 52 && |UnavailableDetail| == 37 && |DisabledDetail| == 40;
  }

  /** The fallback detail gives the original message back. */
  lemma FallbackKeepsMessage(message: string)
    requires !Contains(message, NoElementFound) && !Contains(message, VideoUnavailable)
    requires !Contains(message, TranscriptsDisabled)
    ensures OccursAt(ClassifyFetchError(message).detail, 0, FetchErrorPrefix)
    ensures ClassifyFetchError(message).detail[|FetchErrorPrefix|..] == message
  {
    var d := ClassifyFetchError(message).detail;
    assert d[..|FetchErrorPrefix|] == FetchErrorPrefix;
  }
}
