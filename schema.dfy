/** The records exchanged between the servers, the store and the client
    (shared/schema.ts), the format records the extraction library returns,
    and the VideoInfo builder both servers share. */
module Schema {
  import opened Common

  /** One media format as the extraction library reports it. `contentLength`
      is the parsed byte count of the library's non-empty string. */
  datatype Format = Format(
    height: Option<nat>,
    qualityLabel: Option<string>,
    quality: Option<string>,
    contentLength: Option<nat>,
    container: Option<string>,
    hasAudio: bool,
    bitrate: nat)

  /** The video metadata the library returns, with the locale-formatted view
      count and publish date already rendered, and two format lists: the
      combined audio+video formats first, then the formats a second filter
      selects. That filter is 'videoonly' on the Express server
      (server/routes.ts:33) and 'video' on the serverless function
      (api/server.js:60), where it also admits the combined formats. */
  datatype FetchedInfo = FetchedInfo(
    videoId: string,
    title: string,
    lengthSeconds: nat,
    viewsText: string,
    channel: string,
    publishDateText: string,
    thumbnails: seq<string>,
    primaryFormats: seq<Format>,
    secondaryFormats: seq<Format>)

  /** An entry of `availableQualities` as the Express server and the client see it. */
  datatype QualityOption = QualityOption(quality: string, format: string, fileSize: string)

  datatype VideoInfo<Q> = VideoInfo(
    id: string,
    title: string,
    duration: string,
    views: string,
    channel: string,
    publishDate: string,
    thumbnail: string,
    availableQualities: seq<Q>)

  datatype DownloadRequest = DownloadRequest(url: string, quality: string, format: string)

  /** The polled progress record; the schema bounds `progress` to 0..100 but no
      writer checks the bound. */
  datatype DownloadProgress = DownloadProgress(
    progress: nat,
    downloadedSize: string,
    totalSize: string,
    speed: string,
    eta: string)

  /** An HTTP answer: a JSON body, or a status code with a message. */
  datatype Reply<T> = Ok(body: T) | Error(status: nat, message: string)

  /** The largest time value a JavaScript Date accepts, in milliseconds. */
  const MaxDateMs: nat := 8640000000000000

  /** Two decimal digits, zero-padded. */
  function Pad2(n: nat): (s: string)
    requires n < 100
    ensures |s| == 2 && AllDigits(s) && DigitsValue(s) == n
  {
    var s := [DigitChar(n / 10), DigitChar(n % 10)];
    assert s[..1] == [DigitChar(n / 10)] && s[..1][..0] == [];
    assert DigitsValue(s[..1]) == n / 10;
    assert DigitsValue(s) == (n / 10) * 10 + n % 10;
    s
  }

  /** `new Date(sec * 1000).toISOString().substr(11, 8)`: the UTC clock time
      HH:MM:SS that `sec` seconds after the epoch shows. */
  function DurationText(sec: nat): (s: string)
    ensures |s| == 8 && s[2] == ':' && s[5] == ':'
    ensures AllDigits(s[0..2]) && AllDigits(s[3..5]) && AllDigits(s[6..8])
    ensures DigitsValue(s[0..2]) < 24 && DigitsValue(s[3..5]) < 60 && DigitsValue(s[6..8]) < 60
    ensures DigitsValue(s[0..2]) * 3600 + DigitsValue(s[3..5]) * 60 + DigitsValue(s[6..8]) == sec % 86400
  {
    var h, m, x := (sec / 3600) % 24, (sec / 60) % 60, sec % 60;
    ClockFields(sec);
    var s := Pad2(h) + ":" + Pad2(m) + ":" + Pad2(x);
    assert s[0..2] == Pad2(h) && s[3..5] == Pad2(m) && s[6..8] == Pad2(x);
    s
  }

  /** Hours of the day, minutes and seconds recombine to the time of day. */
  lemma ClockFields(sec: nat)
    ensures ((sec / 3600) % 24) * 3600 + ((sec / 60) % 60) * 60 + sec % 60 == sec % 86400
  {
    var day, t := sec / 86400, sec % 86400;
    assert sec == day * 86400 + t;
    assert sec == (day * 24) * 3600 + t;
    DivModShift(day * 24, t, 3600);
    DivModShift(t / 3600, t % 3600, 24);
    assert t / 3600 < 24;
    DivModUnique(sec / 3600, 24, day, t / 3600);
    var u := t % 3600;
    assert t == (t / 3600) * 3600 + u;
    assert sec == (day * 1440 + (t / 3600) * 60) * 60 + u;
    DivModShift(day * 1440 + (t / 3600) * 60, u, 60);
    assert sec / 60 == (day * 24 + t / 3600) * 60 + u / 60;
    assert u / 60 < 60;
    DivModShift(day * 24 + t / 3600, u / 60, 60);
    assert sec % 60 == u % 60;
    assert u == (u / 60) * 60 + u % 60;
  }

  /** Builds the VideoInfo record (server/routes.ts:106-115, api/server.js:96-105).
      It fails where the source throws: a length too large for a Date, or no thumbnail. */
  function MakeVideoInfo<Q>(info: FetchedInfo, qualities: seq<Q>): (r: Result<VideoInfo<Q>, string>)
    ensures r.Success? <==> info.lengthSeconds * 1000 <= MaxDateMs && |info.thumbnails| > 0
    ensures r.Success? ==> r.value.availableQualities == qualities
    ensures r.Success? ==> r.value.thumbnail == info.thumbnails[|info.thumbnails| - 1]
    ensures r.Success? ==> r.value.duration == DurationText(info.lengthSeconds)
  {
    if info.lengthSeconds * 1000 > MaxDateMs then Failure("Invalid time value")
    else if |info.thumbnails| == 0 then Failure("Cannot read properties of undefined (reading 'url')")
    else Success(VideoInfo(
      info.videoId,
      info.title,
      DurationText(info.lengthSeconds),
      info.viewsText,
      info.channel,
      info.publishDateText,
      info.thumbnails[|info.thumbnails| - 1],
      qualities))
  }
}
