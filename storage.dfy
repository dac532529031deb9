/** The Express server's in-memory store (server/storage.ts): a cache of
    analysed videos keyed by URL and the polled progress records keyed by
    session id. Nothing is ever removed. */
module Storage {
  import opened Common
  import opened Schema

  class MemStorage {
    var videoInfoCache: map<string, VideoInfo<QualityOption>>
    var downloadProgress: map<string, DownloadProgress>

    /** A fresh store knows no video and no session. */
    constructor ()
      ensures videoInfoCache == map[] && downloadProgress == map[]
    {
      videoInfoCache := map[];
      downloadProgress := map[];
    }

    /** The cached info for `url`, or None (undefined) when it was never set. */
    method GetVideoInfo(url: string) returns (r: Option<VideoInfo<QualityOption>>)
      ensures r.Some? <==> url in videoInfoCache
      ensures r.Some? ==> r.value == videoInfoCache[url]
    {
      r := if url in videoInfoCache then Some(videoInfoCache[url]) else None;
    }

    /** Caches `info` under `url`; every other URL, and all progress, is unchanged. */
    method SetVideoInfo(url: string, info: VideoInfo<QualityOption>)
      modifies this
      ensures videoInfoCache == old(videoInfoCache)[url := info]
      ensures downloadProgress == old(downloadProgress)
      ensures old(videoInfoCache).Keys <= videoInfoCache.Keys
    {
      videoInfoCache := videoInfoCache[url := info];
    }

    /** The progress record of `sessionId`, or None (undefined) when it was never set. */
    method GetDownloadProgress(sessionId: string) returns (r: Option<DownloadProgress>)
      ensures r.Some? <==> sessionId in downloadProgress
      ensures r.Some? ==> r.value == downloadProgress[sessionId]
    {
      r := if sessionId in downloadProgress then Some(downloadProgress[sessionId]) else None;
    }

    /** Stores `progress` under `sessionId`, replacing any earlier record; every
        other session, and the video cache, is unchanged. */
    method SetDownloadProgress(sessionId: string, progress: DownloadProgress)
      modifies this
      ensures downloadProgress == old(downloadProgress)[sessionId := progress]
      ensures videoInfoCache == old(videoInfoCache)
      ensures old(downloadProgress).Keys <= downloadProgress.Keys
    {
      downloadProgress := downloadProgress[sessionId := progress];
    }
  }
}
