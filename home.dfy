/** The downloader page (client/src/pages/home.tsx): the URL check, the
    display names of quality labels, and the page state that the handlers and
    the request callbacks update. Each request is split into the handler that
    starts it and the callback that receives its answer. */
module HomePage {
  import opened Common
  import opened Schema
  import RoutesQualities

  // ---- The URL check (client/src/pages/home.tsx:35-37)

  /** `s.includes(p)`, scanning from the left. */
  predicate Includes(s: string, p: string)
    decreases |s|
  {
    (|p| <= |s| && s[..|p|] == p) || (s != [] && Includes(s[1..], p))
  }

  /** p occurs in s starting at i. */
  predicate OccursAt(s: string, p: string, i: int) {
    0 <= i && i + |p| <= |s| && s[i..i + |p|] == p
  }

  lemma {:induction false} IncludesIff(s: string, p: string)
    ensures Includes(s, p) <==> exists i :: OccursAt(s, p, i)
    decreases |s|
  {
    if s != [] {
      IncludesIff(s[1..], p);
      forall i | OccursAt(s[1..], p, i)
        ensures OccursAt(s, p, i + 1)
      {
        assert s[1..][i..i + |p|] == s[i + 1..i + 1 + |p|];
      }
      forall i | OccursAt(s, p, i) && i > 0
        ensures OccursAt(s[1..], p, i - 1)
      {
        assert s[1..][i - 1..i - 1 + |p|] == s[i..i + |p|];
      }
    }
    if OccursAt(s, p, 0) {
      assert s[..|p|] == s[0..|p|];
    }
  }

  /** The check looks for the host names anywhere in the text: it holds
      exactly when one of them occurs somewhere, in a query or a path as well
      as in the host. */
  function IsValidYouTubeUrl(url: string): (r: bool)
    ensures r <==> (exists i :: OccursAt(url, "youtube.com", i)) || (exists i :: OccursAt(url, "youtu.be", i))
  {
    IncludesIff(url, "youtube.com");
    IncludesIff(url, "youtu.be");
    Includes(url, "youtube.com") || Includes(url, "youtu.be")
  }

  lemma AcceptsAnyTextAroundHost(before: string, after: string)
    ensures IsValidYouTubeUrl(before + "youtube.com" + after)
    ensures IsValidYouTubeUrl(before + "youtu.be" + after)
  {
    var u1, u2 := before + "youtube.com" + after, before + "youtu.be" + after;
    assert OccursAt(u1, "youtube.com", |before|) by {
      assert u1[|before|..|before| + 11] == "youtube.com";
    }
    assert OccursAt(u2, "youtu.be", |before|) by {
      assert u2[|before|..|before| + 8] == "youtu.be";
    }
  }

  /** Any text shorter than the shorter host name is rejected; with the empty
      URL among them, the `!videoUrl` test of handleAnalyze adds nothing to
      the host check. */
  lemma RejectsShort(url: string)
    requires |url| < |"youtu.be"|
    ensures !IsValidYouTubeUrl(url)
  {
  }

  // ---- Display names (client/src/pages/home.tsx:398-411)

  /** The labels that have a descriptive name, and those names. */
  const NamedLabels: seq<string> := ["4320p60", "2160p60", "1440p", "1080p", "720p", "480p", "360p", "240p", "144p"]
  const DisplayNames: seq<string> := [
    "8K Ultra HD (4320p)", "4K Ultra HD (2160p)", "2K Quad HD (1440p)", "Full HD (1080p)",
    "HD (720p)", "SD (480p)", "Standard (360p)", "Low Quality (240p)", "Low Quality (144p)"]

  function GetDisplayQuality(q: string): (r: string)
    ensures r == q <==> q !in NamedLabels
  {
    match q
    case "4320p60" => "8K Ultra HD (4320p)"
    case "2160p60" => "4K Ultra HD (2160p)"
    case "1440p" => "2K Quad HD (1440p)"
    case "1080p" => "Full HD (1080p)"
    case "720p" => "HD (720p)"
    case "480p" => "SD (480p)"
    case "360p" => "Standard (360p)"
    case "240p" => "Low Quality (240p)"
    case "144p" => "Low Quality (144p)"
    case _ => q
  }

  /** A label with a descriptive name gets its own name; any other label is
      shown as it is. */
  lemma DisplayQualityTable(q: string)
    ensures forall k :: 0 <= k < 9 && NamedLabels[k] == q ==> GetDisplayQuality(q) == DisplayNames[k]
    ensures q !in NamedLabels ==> GetDisplayQuality(q) == q
  {
  }

  /** Distinct named labels show distinct names, and no name is a label. */
  lemma DisplayNamesDistinct()
    ensures forall i, j :: 0 <= i < j < 9 ==> DisplayNames[i] != DisplayNames[j] && NamedLabels[i] != NamedLabels[j]
    ensures forall i, j :: 0 <= i < 9 && 0 <= j < 9 ==> DisplayNames[i] != NamedLabels[j]
  {
  }

  /** Every label the Express server derives from a height has a descriptive
      name: its nine labels are exactly the named ones. */
  lemma BucketLabelsAreNamed()
    ensures forall k :: 0 <= k < 9 ==> GetDisplayQuality(RoutesQualities.BucketLabels[k]) == DisplayNames[k]
  {
    assert RoutesQualities.BucketLabels == NamedLabels;
  }

  // ---- Page state (client/src/pages/home.tsx:21-31, 44-238)

  /** The four texts of the progress panel. */
  datatype Stats = Stats(downloadedSize: string, totalSize: string, speed: string, eta: string)

  const InitialStats := Stats("0MB", "0MB", "0 MB/s", "0s")

  class Home {
    var videoUrl: string
    var selectedQuality: string
    var selectedFormat: string
    var videoInfo: Option<VideoInfo<QualityOption>>
    var downloadProgress: nat
    var isDownloading: bool
    var downloadComplete: bool
    var error: Option<string>
    var downloadSessionId: Option<string>
    var downloadStats: Stats
    /** Whether the polling interval is running. */
    var polling: bool

    /** The state of a freshly loaded page. */
    predicate Initial()
      reads this
    {
      && videoUrl == "" && selectedQuality == "" && selectedFormat == "mp4"
      && videoInfo == None && downloadProgress == 0
      && !isDownloading && !downloadComplete
      && error == None && downloadSessionId == None
      && downloadStats == InitialStats && !polling
    }

    /** The progress panel (shown while downloading) and the completion panel
        (shown once complete) are never both on screen. */
    predicate Valid()
      reads this
    {
      downloadComplete ==> !isDownloading
    }

    constructor ()
      ensures Initial() && Valid()
    {
      videoUrl := "";
      selectedQuality := "";
      selectedFormat := "mp4";
      videoInfo := None;
      downloadProgress := 0;
      isDownloading := false;
      downloadComplete := false;
      error := None;
      downloadSessionId := None;
      downloadStats := InitialStats;
      polling := false;
    }

    method SetVideoUrl(url: string)
      requires Valid()
      modifies this
      ensures Valid()
      ensures videoUrl == url
      ensures selectedQuality == old(selectedQuality) && selectedFormat == old(selectedFormat)
      ensures videoInfo == old(videoInfo) && downloadProgress == old(downloadProgress)
      ensures isDownloading == old(isDownloading) && downloadComplete == old(downloadComplete)
      ensures error == old(error) && downloadSessionId == old(downloadSessionId)
      ensures downloadStats == old(downloadStats) && polling == old(polling)
    {
      videoUrl := url;
    }

    method SetSelectedQuality(quality: string)
      requires Valid()
      modifies this
      ensures Valid()
      ensures selectedQuality == quality
      ensures videoUrl == old(videoUrl) && selectedFormat == old(selectedFormat)
      ensures videoInfo == old(videoInfo) && downloadProgress == old(downloadProgress)
      ensures isDownloading == old(isDownloading) && downloadComplete == old(downloadComplete)
      ensures error == old(error) && downloadSessionId == old(downloadSessionId)
      ensures downloadStats == old(downloadStats) && polling == old(polling)
    {
      selectedQuality := quality;
    }

    method SetSelectedFormat(format: string)
      requires Valid()
      modifies this
      ensures Valid()
      ensures selectedFormat == format
      ensures videoUrl == old(videoUrl) && selectedQuality == old(selectedQuality)
      ensures videoInfo == old(videoInfo) && downloadProgress == old(downloadProgress)
      ensures isDownloading == old(isDownloading) && downloadComplete == old(downloadComplete)
      ensures error == old(error) && downloadSessionId == old(downloadSessionId)
      ensures downloadStats == old(downloadStats) && polling == old(polling)
    {
      selectedFormat := format;
    }

    /** handleAnalyze: an empty or foreign URL sets the error and sends
        nothing; otherwise the URL is sent for analysis and nothing changes yet. */
    method HandleAnalyze() returns (request: Option<string>)
      requires Valid()
      modifies this
      ensures Valid()
      ensures (videoUrl == "" || !IsValidYouTubeUrl(videoUrl)) <==> request.None?
      ensures request.None? ==> error == Some("Please enter a valid YouTube URL")
      ensures request.Some? ==> request.value == videoUrl && error == old(error)
      ensures videoUrl == old(videoUrl) && selectedQuality == old(selectedQuality) && selectedFormat == old(selectedFormat)
      ensures videoInfo == old(videoInfo) && downloadProgress == old(downloadProgress)
      ensures isDownloading == old(isDownloading) && downloadComplete == old(downloadComplete)
      ensures downloadSessionId == old(downloadSessionId)
      ensures downloadStats == old(downloadStats) && polling == old(polling)
    {
      if videoUrl == "" || !IsValidYouTubeUrl(videoUrl) {
        error := Some("Please enter a valid YouTube URL");
        return None;
      }
      request := Some(videoUrl);
    }

    /** The analysis outcome: on success the info is shown and the error
        cleared; on failure the thrown error's message (or a default) is shown
        and the info dropped. */
    method OnAnalyzed(outcome: Result<VideoInfo<QualityOption>, string>)
      requires Valid()
      modifies this
      ensures Valid()
      ensures outcome.Success? ==> videoInfo == Some(outcome.value) && error == None
      ensures outcome.Failure? ==>
                videoInfo == None && error == Some(if outcome.error != "" then outcome.error else "Failed to analyze video")
      ensures videoUrl == old(videoUrl) && selectedQuality == old(selectedQuality) && selectedFormat == old(selectedFormat)
      ensures downloadProgress == old(downloadProgress)
      ensures isDownloading == old(isDownloading) && downloadComplete == old(downloadComplete)
      ensures downloadSessionId == old(downloadSessionId)
      ensures downloadStats == old(downloadStats) && polling == old(polling)
    {
      if outcome.Success? {
        videoInfo := Some(outcome.value);
        error := None;
      } else {
        error := Some(if outcome.error != "" then outcome.error else "Failed to analyze video");
        videoInfo := None;
      }
    }

    /** handleDownload, reachable only from the quality panel (shown while
        info is present and no download runs or has completed): without info
        or a chosen quality nothing happens; otherwise the download starts at
        0% and the request is sent. */
    method HandleDownload() returns (request: Option<DownloadRequest>)
      requires Valid() && !isDownloading && !downloadComplete
      modifies this
      ensures Valid()
      ensures (videoInfo.None? || selectedQuality == "") <==> request.None?
      ensures request.None? ==> isDownloading == old(isDownloading) && downloadProgress == old(downloadProgress)
      ensures request.Some? ==>
                && request.value == DownloadRequest(videoUrl, selectedQuality, selectedFormat)
                && isDownloading && downloadProgress == 0
      ensures videoUrl == old(videoUrl) && selectedQuality == old(selectedQuality) && selectedFormat == old(selectedFormat)
      ensures videoInfo == old(videoInfo) && downloadComplete == old(downloadComplete)
      ensures error == old(error) && downloadSessionId == old(downloadSessionId)
      ensures downloadStats == old(downloadStats) && polling == old(polling)
    {
      if videoInfo.None? || selectedQuality == "" {
        return None;
      }
      isDownloading := true;
      downloadProgress := 0;
      request := Some(DownloadRequest(videoUrl, selectedQuality, selectedFormat));
    }

    /** The start-download outcome: on success the session is remembered and
        polling begins; on failure the download stops with the thrown error's
        message (or a default). The browser's request for the file itself is
        not modelled. */
    method OnDownloadStarted(outcome: Result<string, string>)
      requires Valid()
      modifies this
      ensures Valid()
      ensures outcome.Success? ==>
                && downloadSessionId == Some(outcome.value) && polling
                && isDownloading == old(isDownloading) && error == old(error)
      ensures outcome.Failure? ==>
                && !isDownloading && error == Some(if outcome.error != "" then outcome.error else "Download failed")
                && downloadSessionId == old(downloadSessionId) && polling == old(polling)
      ensures videoUrl == old(videoUrl) && selectedQuality == old(selectedQuality) && selectedFormat == old(selectedFormat)
      ensures videoInfo == old(videoInfo) && downloadProgress == old(downloadProgress)
      ensures downloadComplete == old(downloadComplete) && downloadStats == old(downloadStats)
    {
      if outcome.Success? {
        downloadSessionId := Some(outcome.value);
        polling := true;
      } else {
        isDownloading := false;
        error := Some(if outcome.error != "" then outcome.error else "Download failed");
      }
    }

    /** trackDownloadProgress: a failed poll changes nothing; a record
        replaces the percentage and the four texts, and a record at 100% or
        more ends the download as complete and stops the polling. */
    method TrackDownloadProgress(reply: Reply<DownloadProgress>)
      requires Valid()
      modifies this
      ensures Valid()
      ensures reply.Error? ==>
                && downloadProgress == old(downloadProgress) && downloadStats == old(downloadStats)
                && isDownloading == old(isDownloading) && downloadComplete == old(downloadComplete)
                && polling == old(polling)
      ensures reply.Ok? ==>
                && downloadProgress == reply.body.progress
                && downloadStats == Stats(reply.body.downloadedSize, reply.body.totalSize, reply.body.speed, reply.body.eta)
      ensures reply.Ok? && reply.body.progress >= 100 ==> !isDownloading && downloadComplete && !polling
      ensures reply.Ok? && reply.body.progress < 100 ==>
                isDownloading == old(isDownloading) && downloadComplete == old(downloadComplete) && polling == old(polling)
      ensures videoUrl == old(videoUrl) && selectedQuality == old(selectedQuality) && selectedFormat == old(selectedFormat)
      ensures videoInfo == old(videoInfo) && error == old(error) && downloadSessionId == old(downloadSessionId)
    {
      if reply.Error? {
        return;
      }
      var p := reply.body;
      downloadProgress := p.progress;
      downloadStats := Stats(p.downloadedSize, p.totalSize, p.speed, p.eta);
      if p.progress >= 100 {
        isDownloading := false;
        downloadComplete := true;
        polling := false;
      }
    }

    /** handleReset: the page returns to the state of a fresh load and the
        polling stops. */
    method HandleReset()
      modifies this
      ensures Initial() && Valid()
    {
      videoUrl := "";
      videoInfo := None;
      selectedQuality := "";
      selectedFormat := "mp4";
      downloadProgress := 0;
      isDownloading := false;
      downloadComplete := false;
      error := None;
      downloadSessionId := None;
      downloadStats := InitialStats;
      polling := false;
    }

    /** The "Try Again" button of the error panel: the error is cleared and
        the page is back to its form, with the URL and choices kept. */
    method DismissError()
      requires Valid()
      modifies this
      ensures Valid()
      ensures error == None
      ensures videoUrl == old(videoUrl) && selectedQuality == old(selectedQuality)
      ensures selectedFormat == old(selectedFormat)
      ensures videoInfo == old(videoInfo) && downloadProgress == old(downloadProgress)
      ensures isDownloading == old(isDownloading) && downloadComplete == old(downloadComplete)
      ensures downloadSessionId == old(downloadSessionId)
      ensures downloadStats == old(downloadStats) && polling == old(polling)
    {
      error := None;
    }
  }

  /** A download driven to completion: after the request and its session,
      a poll that reports 100% shows the completion panel alone. */
  method CompleteDownload(page: Home, sessionId: string, last: DownloadProgress)
    requires page.Valid() && !page.isDownloading && !page.downloadComplete
    requires page.videoInfo.Some? && page.selectedQuality != "" && last.progress == 100
    modifies page
    ensures page.downloadComplete && !page.isDownloading && !page.polling && page.downloadProgress == 100
  {
    var request := page.HandleDownload();
    assert request.Some? && page.isDownloading;
    page.OnDownloadStarted(Success(sessionId));
    assert page.polling && page.downloadSessionId == Some(sessionId);
    page.TrackDownloadProgress(Ok(last));
  }
}
