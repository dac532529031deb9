/** The Express server's endpoints and download sessions (server/routes.ts):
    analysis with the store as cache, the start-download and progress
    endpoints over the store, and the download handler whose stream callbacks
    update the module-level `activeDownloads` map and the store. */
module RoutesDownloads {
  import opened Common
  import opened Schema
  import Storage
  import RoutesQualities
  import opened Transfer

  /** An `activeDownloads` entry (server/routes.ts:206-211, 230-235). */
  datatype ActiveDownload = ActiveDownload(totalBytes: nat, downloadedBytes: nat, startTime: nat, progress: nat)

  /** What the download handler answers before the bytes start to flow. */
  datatype DownloadStart = DownloadStart(sessionId: string, filename: string, totalBytes: nat)

  /** The record /api/start-download stores (server/routes.ts:281-287). */
  const InitialProgress := DownloadProgress(0, "0MB", "Unknown", "0 MB/s", "Calculating...")

  const AnalyzeFailed := "Failed to analyze video. Please check the URL and try again."

  // ---- The ETA text (server/routes.ts:226-227)

  /** `${Math.floor(eta / 60)}m ${eta % 60}s`, or "Calculating..." unless eta > 0. */
  function EtaText(eta: int): (r: string)
    ensures r == "Calculating..." <==> eta <= 0
  {
    if eta > 0 then
      var m := NatStr(eta / 60);
      var r := m + "m " + NatStr(eta % 60) + "s";
      assert r[0] == m[0] && IsDigit(r[0]) && !IsDigit("Calculating..."[0]);
      r
    else "Calculating..."
  }

  /** The length of the leading run of digits. */
  function DigitRun(s: string): (n: nat)
    ensures n <= |s|
  {
    if s == [] || !IsDigit(s[0]) then 0 else 1 + DigitRun(s[1..])
  }

  /** Reads a seconds field "{s}s" with s below 60. */
  function ParseSeconds(rest: string): Option<nat> {
    var j := DigitRun(rest);
    if 0 < j && j + 1 == |rest| && rest[j] == 's' && AllDigits(rest[..j]) && DigitsValue(rest[..j]) < 60 then
      Some(DigitsValue(rest[..j]))
    else None
  }

  /** Parsed minutes plus parsed seconds, in seconds. */
  function Combine(minutes: nat, seconds: Option<nat>): Option<nat> {
    if seconds.Some? then Some(minutes * 60 + seconds.value) else None
  }

  /** Reads an ETA text "{m}m {s}s" (s below 60) back into seconds. */
  function ParseEta(text: string): Option<nat> {
    var i := DigitRun(text);
    if 0 < i && i + 2 <= |text| && text[i] == 'm' && text[i + 1] == ' ' && AllDigits(text[..i]) then
      Combine(DigitsValue(text[..i]), ParseSeconds(text[i + 2..]))
    else None
  }

  lemma {:induction false} DigitRunOfDigits(a: string, tail: string)
    requires AllDigits(a) && (tail == [] || !IsDigit(tail[0]))
    ensures DigitRun(a + tail) == |a|
  {
    if a != [] {
      assert (a + tail)[1..] == a[1..] + tail;
      DigitRunOfDigits(a[1..], tail);
    }
  }

  /** A digit field below 60 followed by `s` reads back to its value. */
  lemma ParseSecondsOf(s: string)
    requires |s| > 0 && AllDigits(s) && DigitsValue(s) < 60
    ensures ParseSeconds(s + "s") == Some(DigitsValue(s))
  {
    var rest := s + "s";
    DigitRunOfDigits(s, "s");
    assert rest[..|s|] == s;
  }

  lemma CombineSome(a: nat, b: nat)
    ensures Combine(a, Some(b)) == Some(a * 60 + b)
  {
  }

  /** A digit field followed by `m ` contributes its value in minutes. */
  lemma ParseMinutesOf(text: string, m: string, secs: string)
    requires text == m + "m " + secs && |m| > 0 && AllDigits(m)
    ensures ParseEta(text) == Combine(DigitsValue(m), ParseSeconds(secs))
  {
    var tail := "m " + secs;
    assert text == m + tail;
    assert text[..|m|] == m;
    assert text[|m| + 2..] == secs;
    assert text[|m|] == 'm' && text[|m| + 1] == ' ';
    DigitRunOfDigits(m, tail);
  }

  /** Two digit fields, the second below 60, in the `{m}m {s}s` shape read
      back to minutes * 60 + seconds. */
  lemma ParseEtaOfFields(text: string, m: string, s: string)
    requires text == m + "m " + (s + "s")
    requires |m| > 0 && |s| > 0 && AllDigits(m) && AllDigits(s) && DigitsValue(s) < 60
    ensures ParseEta(text) == Some(DigitsValue(m) * 60 + DigitsValue(s))
  {
    ParseMinutesOf(text, m, s + "s");
    ParseSecondsOf(s);
    CombineSome(DigitsValue(m), DigitsValue(s));
  }

  /** The ETA text determines the ETA: minutes and seconds with seconds below
      60 that recombine to it, and no number at all when it is not positive. */
  lemma EtaTextRoundTrip(eta: int)
    ensures ParseEta(EtaText(eta)) == if eta > 0 then Some(eta as nat) else None
  {
    if eta > 0 {
      NatStrRoundTrip(eta / 60);
      NatStrRoundTrip(eta % 60);
      var m, s := NatStr(eta / 60), NatStr(eta % 60);
      assert EtaText(eta) == m + "m " + (s + "s");
      ParseEtaOfFields(EtaText(eta), m, s);
    } else {
      assert EtaText(eta)[0] == 'C';
    }
  }

  /** The progress record a chunk stores when the total size is known. */
  function ChunkProgress(d: nat, t: nat, elapsedMs: nat, speedText: string): (p: DownloadProgress)
    requires t > 0
    ensures d <= t ==> p.progress <= 100
  {
    DownloadProgress(
      Percent(d, t),
      MegabyteText(d),
      MegabyteText(t),
      if elapsedMs > 0 then speedText else "Calculating...",
      EtaText(EtaSeconds(d, t, elapsedMs)))
  }

  /** The analysed VideoInfo the server caches (server/routes.ts:27-115). */
  function BuildVideoInfo(info: FetchedInfo): (r: Result<VideoInfo<QualityOption>, string>)
    ensures r.Success? <==> info.lengthSeconds * 1000 <= MaxDateMs && |info.thumbnails| > 0
    ensures r.Success? ==>
              var q := r.value.availableQualities;
              forall i, j :: 0 <= i < j < |q| ==> q[i].quality != q[j].quality
  {
    RoutesQualities.AvailableQualitiesUnique(info.primaryFormats, info.secondaryFormats, info.lengthSeconds);
    MakeVideoInfo(info, RoutesQualities.AvailableQualities(info.primaryFormats, info.secondaryFormats, info.lengthSeconds))
  }

  /** The module-level state: the `activeDownloads` map and the shared store. */
  class RoutesServer {
    var activeDownloads: map<string, ActiveDownload>
    const storage: Storage.MemStorage

    constructor (storage: Storage.MemStorage)
      ensures this.storage == storage && activeDownloads == map[]
    {
      this.storage := storage;
      activeDownloads := map[];
    }

    /** POST /api/analyze: 400 for a missing or rejected URL, the cached info if
        there is one, else the freshly built info, which is then cached; 500 when
        the library or the build fails. */
    method Analyze(url: Option<string>, urlValid: bool, fetched: Result<FetchedInfo, string>)
      returns (reply: Reply<VideoInfo<QualityOption>>)
      modifies storage
      ensures storage.downloadProgress == old(storage.downloadProgress)
      ensures !Present(url) || !urlValid ==>
                reply == Error(400, "Invalid YouTube URL") && storage.videoInfoCache == old(storage.videoInfoCache)
      ensures Present(url) && urlValid && url.value in old(storage.videoInfoCache) ==>
                reply == Ok(old(storage.videoInfoCache)[url.value]) && storage.videoInfoCache == old(storage.videoInfoCache)
      ensures Present(url) && urlValid && url.value !in old(storage.videoInfoCache) ==>
                var built := if fetched.Success? then BuildVideoInfo(fetched.value) else Failure(fetched.error);
                if built.Success? then
                  reply == Ok(built.value) && storage.videoInfoCache == old(storage.videoInfoCache)[url.value := built.value]
                else
                  reply == Error(500, AnalyzeFailed) && storage.videoInfoCache == old(storage.videoInfoCache)
    {
      if !Present(url) || !urlValid {
        return Error(400, "Invalid YouTube URL");
      }
      var cached := storage.GetVideoInfo(url.value);
      if cached.Some? {
        return Ok(cached.value);
      }
      if fetched.Failure? {
        return Error(500, AnalyzeFailed);
      }
      var built := BuildVideoInfo(fetched.value);
      if built.Failure? {
        return Error(500, AnalyzeFailed);
      }
      storage.SetVideoInfo(url.value, built.value);
      reply := Ok(built.value);
    }

    /** POST /api/start-download: 400 for an invalid request; otherwise the
        zero record is stored under the new id, which is returned. */
    method StartDownload(requestValid: bool, freshId: string) returns (reply: Reply<string>)
      modifies storage
      ensures storage.videoInfoCache == old(storage.videoInfoCache)
      ensures !requestValid ==>
                reply == Error(400, "Invalid download request") && storage.downloadProgress == old(storage.downloadProgress)
      ensures requestValid ==>
                reply == Ok(freshId) && storage.downloadProgress == old(storage.downloadProgress)[freshId := InitialProgress]
    {
      if !requestValid {
        return Error(400, "Invalid download request");
      }
      storage.SetDownloadProgress(freshId, InitialProgress);
      reply := Ok(freshId);
    }

    /** GET /api/progress/:sessionId: the stored record, or 404 for an unknown id. */
    method Progress(sessionId: string) returns (reply: Reply<DownloadProgress>)
      ensures sessionId in storage.downloadProgress ==> reply == Ok(storage.downloadProgress[sessionId])
      ensures sessionId !in storage.downloadProgress ==> reply == Error(404, "Session not found")
    {
      var p := storage.GetDownloadProgress(sessionId);
      if p.None? {
        return Error(404, "Session not found");
      }
      reply := Ok(p.value);
    }

    /** The download handler up to the first byte (server/routes.ts:130-211).
        The library's answers enter as parameters: whether it accepts the URL,
        the fetched info, and the outcome of the format selection, which is
        Failure when the fallback `chooseFormat` in its catch throws too (that
        throw reaches the handler's outer catch). On success the
        session is registered with zero bytes and a stream is returned whose
        callbacks drive the rest. */
    method Download(requestValid: bool, requestSessionId: Option<string>, freshId: string, urlValid: bool,
                    fetched: Result<FetchedInfo, string>, selected: Result<Option<Format>, string>, startTime: nat)
      returns (reply: Reply<DownloadStart>, stream: RoutesStream?)
      modifies this
      ensures reply.Error? <==> stream == null
      ensures !requestValid ==> reply == Error(400, "Invalid download request")
      ensures requestValid && !urlValid ==> reply == Error(400, "Invalid YouTube URL")
      ensures requestValid && urlValid && (fetched.Failure? || (fetched.Success? && selected.Failure?)) ==>
                reply == Error(500, "Failed to start download. Please try again.")
      ensures requestValid && urlValid && fetched.Success? && selected == Success(None) ==>
                reply == Error(500, "No suitable format found for download")
      ensures reply.Error? ==> activeDownloads == old(activeDownloads)
      ensures requestValid && urlValid && fetched.Success? && selected.Success? && selected.value.Some? ==>
                var id := OrElse(requestSessionId, freshId);
                var format := selected.value.value;
                var total := if format.contentLength.Some? then format.contentLength.value else 0;
                && reply == Ok(DownloadStart(id, RoutesQualities.DownloadFilename(fetched.value.title, format.container), total))
                && fresh(stream) && stream.Valid() && stream.server == this
                && stream.sessionId == id && stream.totalBytes == total && stream.startTime == startTime
                && stream.downloadedBytes == 0 && stream.received == []
                && activeDownloads == old(activeDownloads)[id := ActiveDownload(total, 0, startTime, 0)]
    {
      stream := null;
      if !requestValid {
        return Error(400, "Invalid download request"), null;
      }
      var id := OrElse(requestSessionId, freshId);
      if !urlValid {
        return Error(400, "Invalid YouTube URL"), null;
      }
      if fetched.Failure? {
        return Error(500, "Failed to start download. Please try again."), null;
      }
      if selected.Failure? {
        return Error(500, "Failed to start download. Please try again."), null;
      }
      if selected.value.None? {
        return Error(500, "No suitable format found for download"), null;
      }
      var format := selected.value.value;
      var filename := RoutesQualities.DownloadFilename(fetched.value.title, format.container);
      var total := if format.contentLength.Some? then format.contentLength.value else 0;
      activeDownloads := activeDownloads[id := ActiveDownload(total, 0, startTime, 0)];
      stream := new RoutesStream(this, id, total, startTime);
      reply := Ok(DownloadStart(id, filename, total));
    }
  }

  /** The state the download handler's stream callbacks share: the session id,
      the total from the chosen format, the start time and the running byte count. */
  class RoutesStream {
    const server: RoutesServer
    const sessionId: string
    const totalBytes: nat
    const startTime: nat
    var downloadedBytes: nat
    /** The lengths of the chunks received so far. */
    ghost var received: seq<nat>

    ghost predicate Valid()
      reads this
    {
      downloadedBytes == Sum(received)
    }

    constructor (server: RoutesServer, sessionId: string, totalBytes: nat, startTime: nat)
      ensures Valid() && received == [] && downloadedBytes == 0
      ensures this.server == server && this.sessionId == sessionId
      ensures this.totalBytes == totalBytes && this.startTime == startTime
    {
      this.server := server;
      this.sessionId := sessionId;
      this.totalBytes := totalBytes;
      this.startTime := startTime;
      downloadedBytes := 0;
      received := [];
    }

    /** The `data` callback: the byte count grows by the chunk; with a known
        total the session entry and the stored progress are replaced; with an
        unknown total nothing else changes. */
    method OnData(chunkLength: nat, elapsedMs: nat, speedText: string)
      requires Valid()
      modifies this, server, server.storage
      ensures Valid() && received == old(received) + [chunkLength]
      ensures downloadedBytes == old(downloadedBytes) + chunkLength
      ensures server.storage.videoInfoCache == old(server.storage.videoInfoCache)
      ensures totalBytes > 0 ==>
                && server.activeDownloads == old(server.activeDownloads)[sessionId :=
                     ActiveDownload(totalBytes, downloadedBytes, startTime, Percent(downloadedBytes, totalBytes))]
                && server.storage.downloadProgress == old(server.storage.downloadProgress)[sessionId :=
                     ChunkProgress(downloadedBytes, totalBytes, elapsedMs, speedText)]
      ensures totalBytes == 0 ==>
                && server.activeDownloads == old(server.activeDownloads)
                && server.storage.downloadProgress == old(server.storage.downloadProgress)
    {
      downloadedBytes := downloadedBytes + chunkLength;
      received := received + [chunkLength];
      assert received[..|received| - 1] == old(received);
      if totalBytes > 0 {
        var progress := Percent(downloadedBytes, totalBytes);
        server.activeDownloads := server.activeDownloads[sessionId :=
          ActiveDownload(totalBytes, downloadedBytes, startTime, progress)];
        server.storage.SetDownloadProgress(sessionId, ChunkProgress(downloadedBytes, totalBytes, elapsedMs, speedText));
      }
    }

    /** The `error` callback: the session leaves `activeDownloads` (the stored
        progress stays) and a 500 is sent if no header went out yet. */
    method OnError(headersSent: bool) returns (reply: Option<Reply<string>>)
      modifies server
      ensures server.activeDownloads == old(server.activeDownloads) - {sessionId}
      ensures reply == if headersSent then None else Some(Error(500, "Download failed"))
    {
      server.activeDownloads := server.activeDownloads - {sessionId};
      reply := if headersSent then None else Some(Error(500, "Download failed"));
    }

    /** The `end` callback: the session leaves `activeDownloads`; the stored
        progress stays as the last chunk left it. */
    method OnEnd()
      modifies server
      ensures server.activeDownloads == old(server.activeDownloads) - {sessionId}
    {
      server.activeDownloads := server.activeDownloads - {sessionId};
    }
  }

  /** Over a session with a known total, the stored percentage never goes down
      from one chunk to the next and stays within 0..100 while the bytes stay
      within the total. */
  lemma ProgressAcrossChunks(before: seq<nat>, chunk: nat, t: nat)
    requires t > 0 && Sum(before) + chunk <= t
    ensures Percent(Sum(before), t) <= Percent(Sum(before + [chunk]), t) <= 100
  {
    assert (before + [chunk])[..|before|] == before;
    PercentMonotone(Sum(before), Sum(before + [chunk]), t);
  }
}
