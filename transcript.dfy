/**
  The computation inside `get_video_info`: the caption entries fetched for a
  video (taken here as an input) become one transcript record.
 */
module Transcript {
  import opened Wrappers
  import opened Strings
  import opened Errors

  /** One caption entry: its text, and its start and length in seconds. */
  datatype Caption = Caption(text: string, start: real, duration: real)

  /** The record `get_video_info` returns. */
  datatype VideoInfo = VideoInfo(
    videoId: string,
    transcript: string,
    transcriptList: seq<Caption>,
    readingTime: nat,
    duration: string,
    wordCount: nat,
    thumbnailUrl: string)

  const WordsPerMinute := 200
  const UnknownDuration := "Unknown"
  const ThumbnailPrefix := "https://img.youtube.com/vi/"
  const ThumbnailSuffix := "/maxresdefault.jpg"

  // ---------------------------------------------------------------- transcript text

  /** Every entry's text followed by one space, in order. */
  function Joined(captions: seq<Caption>): string {
    if captions == [] then ""
    else Joined(captions[..|captions| - 1]) + captions[|captions| - 1].text + " "
  }

  /** The loop that appends `entry['text'] + " "` for every entry. */
  method JoinTexts(captions: seq<Caption>) returns (text: string)
    ensures text == Joined(captions)
  {
    text := "";
    for i := 0 to |captions|
      invariant text == Joined(captions[..i])
    {
      assert captions[..i + 1][..i] == captions[..i];
      text := text + captions[i].text + " ";
    }
    assert captions[..|captions|] == captions;
  }

  /** The words of every entry, entry by entry. */
  function CaptionWords(captions: seq<Caption>): seq<string> {
    if captions == [] then []
    else CaptionWords(captions[..|captions| - 1]) + Split(captions[|captions| - 1].text)
  }

  /** The joined text splits into exactly the words of the entries: the space after each
      entry keeps the last word of one entry apart from the first word of the next. */
  lemma {:induction false} JoinedWords(captions: seq<Caption>)
    ensures Split(Joined(captions)) == CaptionWords(captions)
  {
    if captions != [] {
      var init := captions[..|captions| - 1];
      var t := captions[|captions| - 1].text;
      JoinedWords(init);
      assert Joined(captions) == Joined(init) + (t + " ");
      SplitConcat(Joined(init), t + " ");
      SplitAppendSpace(t, " ");
    }
  }

  /** The stored transcript: `strip()` of the joined text. */
  function TranscriptText(captions: seq<Caption>): (text: string)
    ensures exists a: nat :: IsStripOf(Joined(captions), text, a)
    ensures text == [] || (!IsSpace(text[0]) && !IsSpace(text[|text| - 1]))
    ensures Split(text) == CaptionWords(captions)
  {
    var text := Strip(Joined(captions));
    SplitStrip(Joined(captions));
    JoinedWords(captions);
    text
  }

  /** The transcript keeps the whitespace inside the entries: one entry "a\nb" gives "a\nb". */
  lemma TranscriptKeepsInnerWhitespace()
    ensures TranscriptText([Caption("a\nb", 0.0, 1.0)]) == "a\nb"
  {
    var captions := [Caption("a\nb", 0.0, 1.0)];
    var s := Joined(captions);
    assert captions[..0] == [];
    assert s == "a\nb ";
    assert IsStripOf(s, "a\nb", 0) by {
      assert s[0..3] == "a\nb";
      assert s[..0] == [] && s[3..] == " ";
    }
    var a: nat :| IsStripOf(s, TranscriptText(captions), a);
    StripOfUnique(s, TranscriptText(captions), a, "a\nb", 0);
  }

  // ---------------------------------------------------------------- counts

  /** `max(1, word_count // 200)`. */
  function ReadingTime(wordCount: nat): (minutes: nat)
    ensures minutes >= 1
    ensures wordCount < 2 * WordsPerMinute ==> minutes == 1
    ensures wordCount >= 2 * WordsPerMinute ==>
      minutes * WordsPerMinute <= wordCount < (minutes + 1) * WordsPerMinute
  {
    if wordCount / WordsPerMinute > 1 then wordCount / WordsPerMinute else 1
  }

  /** More words never mean a shorter reading time. */
  lemma ReadingTimeMonotone(a: nat, b: nat)
    requires a <= b
    ensures ReadingTime(a) <= ReadingTime(b)
  {
    assert a / WordsPerMinute <= b / WordsPerMinute;
  }

  // ---------------------------------------------------------------- duration

  /** Floor of the last entry's end, in whole seconds. */
  function EndSeconds(last: Caption): (e: int)
    ensures e as real <= last.start + last.duration < e as real + 1.0
  {
    (last.start + last.duration).Floor
  }

  /** `f"{minutes}:{seconds:02d}"` from the last entry's end, or "Unknown" without entries.
      Python's float `// 60` and `% 60` are floor division and its remainder, which on the
      floor of the end are Dafny's `/` and `%` by 60 for either sign. */
  function FormatDuration(captions: seq<Caption>): (d: string)
    ensures captions == [] <==> d == UnknownDuration
  {
    if captions == [] then UnknownDuration
    else
      var total := EndSeconds(captions[|captions| - 1]);
      var d := IntToString(total / 60) + ":" + ZeroPad2(total % 60);
      assert d[0] != UnknownDuration[0];
      d
  }

  /** Reads "M:SS" back: an integer before the colon, exactly two digits after it. */
  function ParseDuration(d: string): Option<(int, nat)> {
    if |d| >= 4 && d[|d| - 3] == ':' && IsIntText(d[..|d| - 3]) && AllDigits(d[|d| - 2..]) then
      Some((IntValue(d[..|d| - 3]), DigitsValue(d[|d| - 2..])))
    else None
  }

  /** For a non-empty list the duration reads back as minutes and seconds, the seconds in
      0..59 and minutes * 60 + seconds the whole seconds at the end of the last entry. */
  lemma DurationReadsBack(captions: seq<Caption>)
    requires captions != []
    ensures ParseDuration(FormatDuration(captions)).Some?
    ensures var (m, ss) := ParseDuration(FormatDuration(captions)).value;
      0 <= ss < 60 && m * 60 + ss == EndSeconds(captions[|captions| - 1])
    ensures var d := FormatDuration(captions);
      var (m, ss) := ParseDuration(d).value;
      d[..|d| - 3] == IntToString(m) && d[|d| - 2..] == ZeroPad2(ss)
  {
    var total := EndSeconds(captions[|captions| - 1]);
    var a := IntToString(total / 60);
    var b := ZeroPad2(total % 60);
    var d := FormatDuration(captions);
    assert d == a + ":" + b;
    assert IsIntText(a) && AllDigits(b);
    assert |b| == 2;
    assert d[..|d| - 3] == a;
    assert d[|d| - 2..] == b;
    IntToStringRoundTrip(total / 60);
    ZeroPad2RoundTrip(total % 60);
  }

  /** Only the last entry decides the duration. */
  lemma DurationUsesLastEntry(earlier: seq<Caption>, other: seq<Caption>, last: Caption)
    ensures FormatDuration(earlier + [last]) == FormatDuration(other + [last])
  {
    assert (earlier + [last])[|earlier|] == last;
    assert (other + [last])[|other|] == last;
  }

  // ---------------------------------------------------------------- thumbnail

  /** `f"https://img.youtube.com/vi/{video_id}/maxresdefault.jpg"`. */
  function ThumbnailUrl(videoId: string): (url: string)
    ensures OccursAt(url, 0, ThumbnailPrefix)
    ensures OccursAt(url, |url| - |ThumbnailSuffix|, ThumbnailSuffix)
  {
    var url := ThumbnailPrefix + videoId + ThumbnailSuffix;
    assert url[..|ThumbnailPrefix|] == ThumbnailPrefix;
    assert url[|url| - |ThumbnailSuffix|..] == ThumbnailSuffix;
    url
  }

  /** The video id inside a thumbnail URL, the inverse of ThumbnailUrl. */
  function ThumbnailVideoId(url: string): Option<string> {
    if |url| >= |ThumbnailPrefix| + |ThumbnailSuffix|
       && OccursAt(url, 0, ThumbnailPrefix)
       && OccursAt(url, |url| - |ThumbnailSuffix|, ThumbnailSuffix)
    then Some(url[|ThumbnailPrefix|..|url| - |ThumbnailSuffix|])
    else None
  }

  lemma ThumbnailRoundTrip(videoId: string)
    ensures ThumbnailVideoId(ThumbnailUrl(videoId)) == Some(videoId)
  {
    var url := ThumbnailUrl(videoId);
    assert url[|ThumbnailPrefix|..|url| - |ThumbnailSuffix|] == videoId;
  }

  // ---------------------------------------------------------------- the record

  /** The record `get_video_info` builds from the video id and the fetched entries. */
  function Summarize(videoId: string, captions: seq<Caption>): (info: VideoInfo)
    ensures info.videoId == videoId && info.transcriptList == captions
    ensures info.transcript == TranscriptText(captions)
    ensures Split(info.transcript) == CaptionWords(captions)
    ensures info.wordCount == |Split(info.transcript)|
    ensures info.readingTime == ReadingTime(info.wordCount) && info.readingTime >= 1
    ensures info.duration == FormatDuration(captions)
    ensures captions == [] <==> info.duration == UnknownDuration
    ensures ThumbnailVideoId(info.thumbnailUrl) == Some(videoId)
  {
    var text := TranscriptText(captions);
    var words := |Split(text)|;
    ThumbnailRoundTrip(videoId);
    VideoInfo(videoId, text, captions, ReadingTime(words), FormatDuration(captions), words,
              ThumbnailUrl(videoId))
  }

  /** The try block of `get_video_info`: a failed fetch is classified, otherwise the record is built. */
  method GetVideoInfo(videoId: string, fetched: Result<seq<Caption>, string>)
    returns (r: Result<VideoInfo, Exception>)
    ensures fetched.Success? ==> r == Success(Summarize(videoId, fetched.value))
    ensures fetched.Failure? ==> r == Failure(ClassifyFetchError(fetched.error))
  {
    match fetched
    case Failure(message) =>
      r := Failure(ClassifyFetchError(message));
    case Success(data) =>
      var text := JoinTexts(data);
      text := Strip(text);
      var wordCount := |Split(text)|;
      var readingTime := ReadingTime(wordCount);
      var duration := FormatDuration(data);
      r := Success(VideoInfo(videoId, text, data, readingTime, duration, wordCount,
                             ThumbnailUrl(videoId)));
  }
}
