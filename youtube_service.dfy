/**
 * `YouTubeService`: its configuration and the provider chain of
 * `get_video_metadata`. Each provider's network or library call is a
 * parameter holding what it returned or raised.
 */
module YouTube {
  import opened Outcomes
  import opened Text
  import opened VideoMetadata

  /** The metadata providers, in the order the chain tries them. */
  datatype Provider = DataApi | PyTube | YtDlp | MockData

  function Rank(p: Provider): nat {
    match p
    case DataApi => 0
    case PyTube => 1
    case YtDlp => 2
    case MockData => 3
  }

  /** Each provider appears at most once, in chain order. */
  predicate InChainOrder(attempted: seq<Provider>) {
    forall i, j :: 0 <= i < j < |attempted| ==> Rank(attempted[i]) < Rank(attempted[j])
  }

  /** `self.api_key and self.api_key.strip()`: a key with a character that is not whitespace. */
  predicate KeyConfigured(key: Option<string>) {
    key.Some? && exists i :: 0 <= i < |key.value| && !IsSpace(key.value[i])
  }

  /** The test is the source's: the key is set and stripping it leaves something. */
  lemma KeyConfiguredIsStrip(key: Option<string>)
    ensures KeyConfigured(key) <==> key.Some? && Strip(key.value) != []
  {
  }

  /** A provider's record, when it has one, is for the video asked about and has a bounded description. */
  predicate KeepsVideo(r: Result<Metadata>, videoId: string) {
    r.Success? ==> r.value.videoId == videoId && |r.value.description| <= DescriptionLimit + |Ellipsis|
  }

  /**
   * What the private method of one provider returns or raises, given what its
   * library returned or raised: the Data API response, the PyTube object, the
   * yt-dlp info dictionary; `today` is `datetime.now()`.
   */
  function ProviderResult(p: Provider, videoId: string, api: Result<ApiResponse>, page: Result<PyTubeVideo>,
                          info: Result<YtdlpInfo>, today: Date): (r: Result<Metadata>)
    ensures KeepsVideo(r, videoId)
    ensures p == MockData ==> r == Success(Mock(videoId, today))
  {
    match p
    case DataApi => if api.Failure? then Failure(api.reason) else FromApi(videoId, api.value)
    case PyTube => if page.Failure? then Failure(page.reason) else Success(FromPyTube(videoId, page.value, today))
    case YtDlp => if info.Failure? then Failure(info.reason) else Success(FromYtdlp(videoId, info.value, today))
    case MockData => MockRecord(videoId, today); Success(Mock(videoId, today))
  }

  /** What the chain got from a provider that can fail; the mock record cannot. */
  function Outcome(p: Provider, fromApi: Result<Metadata>, fromPyTube: Result<Metadata>,
                   fromYtdlp: Result<Metadata>): Result<Metadata>
    requires p != MockData
  {
    match p
    case DataApi => fromApi
    case PyTube => fromPyTube
    case YtDlp => fromYtdlp
  }

  /** What `get_video_metadata` ends with: the record and the providers it tried, in order. */
  datatype Fetch = Fetch(record: Metadata, attempted: seq<Provider>)

  class YouTubeService {
    /** `self.api_key`. */
    const apiKey: Option<string>
    /** `self.has_ytdlp`: whether `import yt_dlp` succeeded. */
    const hasYtdlp: bool

    /**
     * `YouTubeService(api_key)`: a missing or empty key is replaced by the
     * `YOUTUBE_API_KEY` environment variable, `env`.
     */
    constructor(apiKeyArgument: Option<string>, env: Option<string>, ytdlpImportable: bool)
      ensures apiKeyArgument.Some? && apiKeyArgument.value != [] ==> apiKey == apiKeyArgument
      ensures apiKeyArgument.None? || apiKeyArgument.value == [] ==> apiKey == env
      ensures hasYtdlp == ytdlpImportable
    {
      apiKey := if apiKeyArgument.Some? && apiKeyArgument.value != [] then apiKeyArgument else env;
      hasYtdlp := ytdlpImportable;
    }

    /**
     * `get_video_metadata`: the Data API when a key is configured, then PyTube,
     * then yt-dlp when it is installed, then the mock record. `fromApi`,
     * `fromPyTube` and `fromYtdlp` are what `_get_metadata_from_api`,
     * `_get_metadata_from_pytube` and `_get_metadata_from_ytdlp` return or
     * raise (see ProviderResult). Gives the record and the providers tried, in
     * order. Its properties are the Chain lemmas below.
     */
    function GetVideoMetadata(videoId: string, today: Date, fromApi: Result<Metadata>,
                              fromPyTube: Result<Metadata>, fromYtdlp: Result<Metadata>): Fetch
    {
      var tried := if KeyConfigured(apiKey) then [DataApi] else [];
      if KeyConfigured(apiKey) && fromApi.Success? then Fetch(fromApi.value, tried)
      else if fromPyTube.Success? then Fetch(fromPyTube.value, tried + [PyTube])
      else if hasYtdlp && fromYtdlp.Success? then Fetch(fromYtdlp.value, tried + [PyTube, YtDlp])
      else if hasYtdlp then Fetch(Mock(videoId, today), tried + [PyTube, YtDlp, MockData])
      else Fetch(Mock(videoId, today), tried + [PyTube, MockData])
    }
  }

  // ---------------------------------------------------------------------------
  // Properties of the chain

  /** At least one provider is tried, each at most once and in chain order. */
  lemma ChainOrder(service: YouTubeService, videoId: string, today: Date, fromApi: Result<Metadata>,
                   fromPyTube: Result<Metadata>, fromYtdlp: Result<Metadata>)
    ensures var a := service.GetVideoMetadata(videoId, today, fromApi, fromPyTube, fromYtdlp).attempted;
            a != [] && InChainOrder(a)
  {
    var f := service.GetVideoMetadata(videoId, today, fromApi, fromPyTube, fromYtdlp);
    var tried := if KeyConfigured(service.apiKey) then [DataApi] else [];
    if !(KeyConfigured(service.apiKey) && fromApi.Success?) {
      var rest := if fromPyTube.Success? then [PyTube]
                  else if service.hasYtdlp && fromYtdlp.Success? then [PyTube, YtDlp]
                  else if service.hasYtdlp then [PyTube, YtDlp, MockData]
                  else [PyTube, MockData];
      assert f.attempted == tried + rest;
      AfterDataApi(tried, rest);
    }
  }

  /** The later providers, in chain order, stay in chain order behind an optional Data API attempt. */
  lemma AfterDataApi(tried: seq<Provider>, rest: seq<Provider>)
    requires tried == [] || tried == [DataApi]
    requires InChainOrder(rest) && DataApi !in rest
    ensures InChainOrder(tried + rest)
  {
    var a := tried + rest;
    forall i, j | 0 <= i < j < |a|
      ensures Rank(a[i]) < Rank(a[j])
    {
      if i < |tried| {
        assert a[j] == rest[j - |tried|] && a[j] in rest;
      } else {
        assert a[i] == rest[i - |tried|] && a[j] == rest[j - |tried|];
      }
    }
  }

  /** Which providers are tried: exactly those the chain reaches. */
  lemma ChainMembers(service: YouTubeService, videoId: string, today: Date, fromApi: Result<Metadata>,
                     fromPyTube: Result<Metadata>, fromYtdlp: Result<Metadata>)
    ensures var a := service.GetVideoMetadata(videoId, today, fromApi, fromPyTube, fromYtdlp).attempted;
            var key := KeyConfigured(service.apiKey);
            (DataApi in a <==> key)
            && (PyTube in a <==> !(key && fromApi.Success?))
            && (YtDlp in a <==> PyTube in a && fromPyTube.Failure? && service.hasYtdlp)
            && (MockData in a <==> PyTube in a && fromPyTube.Failure? && !(service.hasYtdlp && fromYtdlp.Success?))
  {
  }

  /** Every provider tried before the last one failed; the mock record is only ever last. */
  lemma ChainFailures(service: YouTubeService, videoId: string, today: Date, fromApi: Result<Metadata>,
                      fromPyTube: Result<Metadata>, fromYtdlp: Result<Metadata>)
    ensures var a := service.GetVideoMetadata(videoId, today, fromApi, fromPyTube, fromYtdlp).attempted;
            forall k :: 0 <= k < |a| - 1 ==>
              a[k] != MockData && Outcome(a[k], fromApi, fromPyTube, fromYtdlp).Failure?
  {
  }

  /** The record returned is what the last provider tried gave. */
  lemma ChainLast(service: YouTubeService, videoId: string, today: Date, fromApi: Result<Metadata>,
                  fromPyTube: Result<Metadata>, fromYtdlp: Result<Metadata>)
    ensures var r := service.GetVideoMetadata(videoId, today, fromApi, fromPyTube, fromYtdlp);
            r.attempted != [] &&
            var last := r.attempted[|r.attempted| - 1];
            if last == MockData then r.record == Mock(videoId, today)
            else Outcome(last, fromApi, fromPyTube, fromYtdlp) == Success(r.record)
  {
  }

  /** When every provider keeps the video ID and the description bound, so does the chain. */
  lemma ChainKeeps(service: YouTubeService, videoId: string, today: Date, fromApi: Result<Metadata>,
                   fromPyTube: Result<Metadata>, fromYtdlp: Result<Metadata>)
    requires KeepsVideo(fromApi, videoId) && KeepsVideo(fromPyTube, videoId) && KeepsVideo(fromYtdlp, videoId)
    ensures KeepsVideo(Success(service.GetVideoMetadata(videoId, today, fromApi, fromPyTube, fromYtdlp).record), videoId)
  {
    MockRecord(videoId, today);
  }
}
