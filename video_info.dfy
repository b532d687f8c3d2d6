/** The `/video-info` summary assembly (server.js lines 117-122) and the
    request parameter checks of both endpoints (lines 46 and 144). */
module VideoInfo {
  import opened Values
  import Formats

  /** One entry of yt-dlp's `thumbnails` list. */
  datatype Thumbnail = Thumbnail(url: Option<string>)

  /** The parts of yt-dlp's parsed `-J` output that the handler reads. */
  datatype Info = Info(
    title: Option<string>,
    thumbnail: Option<string>,
    thumbnails: Option<seq<Thumbnail>>,
    durationString: Option<string>,
    formats: Option<seq<Formats.Format>>)

  /** The JSON object the handler answers with. */
  datatype Summary = Summary(
    title: string,
    thumbnail: string,
    duration: string,
    formats: seq<Formats.MediaOption>)

  /** The handler's failure: anything thrown between `JSON.parse` and
      `resolve` is reported as "Failed to parse video information". */
  datatype InfoError = ParseFailure

  /** `info.title || 'Untitled'`: never empty. */
  function Title(info: Info): (r: string)
    ensures StringTruthy(info.title) ==> r == info.title.value
    ensures !StringTruthy(info.title) ==> r == "Untitled"
    ensures r != ""
  {
    StringOr(info.title, "Untitled")
  }

  /** `thumbnails?.slice(-1)[0]?.url`: the last entry's url, if any. */
  function LastThumbnailUrl(thumbnails: Option<seq<Thumbnail>>): (r: Option<string>)
    ensures r.Some? ==> thumbnails.Some? && |thumbnails.value| > 0 && r == thumbnails.value[|thumbnails.value| - 1].url
    ensures thumbnails.Some? && |thumbnails.value| > 0 ==> r == thumbnails.value[|thumbnails.value| - 1].url
  {
    match thumbnails
    case None => None
    case Some(list) => if list == [] then None else list[|list| - 1].url
  }

  /** `info.thumbnail || (info.thumbnails?.slice(-1)[0]?.url || '')`. */
  function ThumbnailUrl(info: Info): (r: string)
    ensures StringTruthy(info.thumbnail) ==> r == info.thumbnail.value
    ensures !StringTruthy(info.thumbnail) && StringTruthy(LastThumbnailUrl(info.thumbnails)) ==>
      r == LastThumbnailUrl(info.thumbnails).value
    ensures !StringTruthy(info.thumbnail) && !StringTruthy(LastThumbnailUrl(info.thumbnails)) ==> r == ""
  {
    StringOr(info.thumbnail, StringOr(LastThumbnailUrl(info.thumbnails), ""))
  }

  /** The thumbnail is one of the urls yt-dlp supplied, or empty. */
  lemma ThumbnailProvided(info: Info)
    ensures var r := ThumbnailUrl(info);
      || r == ""
      || (info.thumbnail.Some? && r == info.thumbnail.value)
      || (info.thumbnails.Some? && exists t :: t in info.thumbnails.value && t.url == Some(r))
  {
    var tail := LastThumbnailUrl(info.thumbnails);
    if !StringTruthy(info.thumbnail) && StringTruthy(tail) {
      var list := info.thumbnails.value;
      assert list[|list| - 1] in list;
    }
  }

  /** `info.duration_string || ''`. */
  function Duration(info: Info): (r: string)
    ensures StringTruthy(info.durationString) ==> r == info.durationString.value
    ensures !StringTruthy(info.durationString) ==> r == ""
  {
    StringOr(info.durationString, "")
  }

  /** The body of the `close` handler once yt-dlp's output is parsed: the
      selection loop over `info.formats`, then the summary with its defaults.
      Without a `formats` list the `for..of` throws and the handler reports
      a parse failure. */
  method BuildSummary(info: Info) returns (r: Result<Summary, InfoError>)
    ensures info.formats.None? <==> r == Err(ParseFailure)
    ensures info.formats.Some? ==> r == Ok(Summary(Title(info), ThumbnailUrl(info), Duration(info), Formats.Normalize(info.formats.value)))
  {
    if info.formats.None? {
      return Err(ParseFailure);
    }
    var options := Formats.SelectFormats(info.formats.value);
    r := Ok(Summary(Title(info), ThumbnailUrl(info), Duration(info), options));
  }

  /** The 400 errors of the two endpoints. */
  datatype RequestError = UrlRequired | MissingParameters(required: seq<string>)

  /** `/video-info`: a falsy `url` query parameter is rejected. */
  function VideoInfoUrl(url: Option<string>): (r: Result<string, RequestError>)
    ensures r.Ok? <==> StringTruthy(url)
    ensures r.Ok? ==> r.value == url.value
    ensures r.Err? ==> r.error == UrlRequired
  {
    if StringTruthy(url) then Ok(url.value) else Err(UrlRequired)
  }

  /** `/download`: both `url` and `itag` must be truthy; the error names both. */
  function DownloadRequest(url: Option<string>, itag: Option<string>): (r: Result<(string, string), RequestError>)
    ensures r.Ok? <==> StringTruthy(url) && StringTruthy(itag)
    ensures r.Ok? ==> r.value == (url.value, itag.value)
    ensures r.Err? ==> r.error == MissingParameters(["url", "itag"])
  {
    if StringTruthy(url) && StringTruthy(itag) then Ok((url.value, itag.value))
    else Err(MissingParameters(["url", "itag"]))
  }
}
