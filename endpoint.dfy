/**
  The `POST /api/transcript` handler: extract the video id from the posted URL,
  build the transcript record, and turn every raised exception into the
  `HTTPException` the client receives.
 */
module Endpoint {
  import opened Wrappers
  import opened Strings
  import opened Errors
  import opened VideoId
  import opened Transcript

  /** The body of a successful reply: `{"success": True, "data": video_info}`. */
  datatype Reply = Reply(success: bool, data: VideoInfo)

  const ServerErrorPrefix := "Server error: "

  /** The two `except` clauses of the handler. A `ValueError` becomes status 400 with its
      message; any other exception, an `HTTPException` from `get_video_info` included,
      becomes status 500 with "Server error: " before the exception's text. How an
      `HTTPException` renders as text belongs to the web framework, so it is the
      parameter `describe`, applied to its status code and detail. */
  function Rethrow(e: Exception, describe: (int, string) -> string): (r: Exception)
    ensures r.HttpException?
    ensures r.statusCode == 400 <==> e.ValueError?
    ensures r.statusCode == 500 <==> e.HttpException?
    ensures e.ValueError? ==> r.detail == e.message
    ensures e.HttpException? ==>
      OccursAt(r.detail, 0, ServerErrorPrefix)
      && r.detail[|ServerErrorPrefix|..] == describe(e.statusCode, e.detail)
  {
    match e
    case ValueError(message) => HttpException(400, message)
    case HttpException(status, detail) =>
      var d := ServerErrorPrefix + describe(status, detail);
      assert d[..|ServerErrorPrefix|] == ServerErrorPrefix;
      HttpException(500, d)
  }

  /** The handler, with the caption download as the parameter `fetch` (the entries for a
      video id, or the message of the exception the download raised). */
  method GetTranscript(
    url: string,
    fetch: string -> Result<seq<Caption>, string>,
    describe: (int, string) -> string)
    returns (r: Result<Reply, Exception>)
    ensures r.Failure? ==> r.error.HttpException?
    // A URL neither pattern matches: 400 with the extractor's message.
    ensures VideoIdOf(url).Failure? ==>
      r == Failure(HttpException(400, InvalidUrlMessage))
    // A failed download: the 400 raised by get_video_info reaches the client as a 500.
    ensures VideoIdOf(url).Success? && fetch(VideoIdOf(url).value).Failure? ==>
      var e := ClassifyFetchError(fetch(VideoIdOf(url).value).error);
      r == Failure(HttpException(500, ServerErrorPrefix + describe(400, e.detail)))
    // Otherwise the record for the extracted id.
    ensures VideoIdOf(url).Success? && fetch(VideoIdOf(url).value).Success? ==>
      r == Success(Reply(true, Summarize(VideoIdOf(url).value, fetch(VideoIdOf(url).value).value)))
    // The status tells the two failures apart.
    ensures r.Failure? ==> (r.error.statusCode == 400 <==> VideoIdOf(url).Failure?)
    ensures r.Success? ==> r.value.success && IsVideoId(r.value.data.videoId)
  {
    var id := ExtractVideoId(url);
    if id.Failure? {
      r := Failure(Rethrow(id.error, describe));
      return;
    }
    var info := GetVideoInfo(id.value, fetch(id.value));
    if info.Failure? {
      r := Failure(Rethrow(info.error, describe));
      return;
    }
    r := Success(Reply(true, info.value));
  }
}
