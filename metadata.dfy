/**
 * The four metadata providers of `YouTubeService` and the dictionary they all
 * return: the YouTube Data API response, the PyTube page, the yt-dlp info
 * dictionary, and the mock record used when every provider failed. Fetching is
 * not modelled: each normaliser receives what its library returned.
 */
module VideoMetadata {
  import opened Outcomes
  import opened Text
  import opened Durations
  import opened ViewCounts

  /** The dictionary `get_video_metadata` returns (`published_at`, `channel_name`, `video_id`). */
  datatype Metadata = Metadata(
    title: string,
    description: string,
    thumbnail: string,
    duration: string,
    views: string,
    publishedAt: string,
    channelName: string,
    videoId: string)

  /** A calendar date, as `datetime` holds one. */
  datatype Date = Date(year: nat, month: nat, day: nat)

  predicate LeapYear(year: nat) {
    year % 4 == 0 && (year % 100 != 0 || year % 400 == 0)
  }

  function DaysIn(year: nat, month: nat): nat {
    if month == 2 then (if LeapYear(year) then 29 else 28)
    else if month == 4 || month == 6 || month == 9 || month == 11 then 30
    else 31
  }

  /** The dates `datetime` can represent. */
  predicate ValidDate(d: Date) {
    1 <= d.year <= 9999 && 1 <= d.month <= 12 && 1 <= d.day <= DaysIn(d.year, d.month)
  }

  /** `strftime('%Y-%m-%d')`. */
  function DateText(d: Date): string {
    ZeroPad(d.year, 4) + "-" + ZeroPad(d.month, 2) + "-" + ZeroPad(d.day, 2)
  }

  /** `strftime('%Y%m%d')`, the form yt-dlp reports upload dates in. */
  function Compact(d: Date): string {
    ZeroPad(d.year, 4) + ZeroPad(d.month, 2) + ZeroPad(d.day, 2)
  }

  // ---------------------------------------------------------------------------
  // Descriptions

  const DescriptionLimit: nat := 500
  const Ellipsis: string := "..."

  /** `d[:500] + '...' if len(d) > 500 else d`. */
  function Truncated(description: string): (r: string)
    ensures |r| <= DescriptionLimit + |Ellipsis|
    ensures |description| <= DescriptionLimit ==> r == description
    ensures |description| > DescriptionLimit ==>
              |r| == DescriptionLimit + |Ellipsis| && r[..DescriptionLimit] == description[..DescriptionLimit]
              && r[DescriptionLimit..] == Ellipsis
  {
    if |description| > DescriptionLimit then description[..DescriptionLimit] + Ellipsis else description
  }

  // ---------------------------------------------------------------------------
  // `int(s)` on a string

  /** `int(s)`: optional surrounding whitespace, an optional sign, ASCII digits. */
  function ParseInt(s: string): Option<int> {
    var t := Strip(s);
    if |t| >= 2 && (t[0] == '+' || t[0] == '-') && AllDigits(t[1..]) then
      Some(if t[0] == '-' then -(ParseDec(t[1..]) as int) else ParseDec(t[1..]) as int)
    else if t != [] && AllDigits(t) then Some(ParseDec(t) as int)
    else None
  }

  // ---------------------------------------------------------------------------
  // YouTube Data API v3 (`_get_metadata_from_api`)

  /** One item of the `videos` response: its snippet, statistics and content details. */
  datatype ApiItem = ApiItem(
    title: string,
    description: string,
    thumbnails: map<string, string>,
    publishedAt: string,
    channelTitle: string,
    viewCount: Option<string>,
    duration: string)

  /** The HTTP status and the `items` list of the response. */
  datatype ApiResponse = ApiResponse(status: int, items: seq<ApiItem>)

  /** The `maxresdefault` thumbnail when there is one, else `high` (a KeyError when neither is there). */
  function Thumbnail(thumbnails: map<string, string>): (r: Option<string>)
    ensures r.Some? <==> "maxresdefault" in thumbnails || "high" in thumbnails
    ensures "maxresdefault" in thumbnails ==> r == Some(thumbnails["maxresdefault"])
    ensures "maxresdefault" !in thumbnails && "high" in thumbnails ==> r == Some(thumbnails["high"])
  {
    if "maxresdefault" in thumbnails then Some(thumbnails["maxresdefault"])
    else if "high" in thumbnails then Some(thumbnails["high"])
    else None
  }

  /** The view count of an item; a missing count reads as 0. */
  function ApiViews(item: ApiItem): Option<int> {
    match item.viewCount
    case None => Some(0)
    case Some(text) => ParseInt(text)
  }

  /** Everything `_get_metadata_from_api` reads from the first item can be read. */
  predicate Readable(item: ApiItem) {
    ParsedDuration(item.duration).Some? && ApiViews(item).Some? && Thumbnail(item.thumbnails).Some?
  }

  /** `_get_metadata_from_api`: a record, or the exception it raises. */
  function FromApi(videoId: string, response: ApiResponse): (r: Result<Metadata>)
    ensures r.Success? <==> response.status == 200 && response.items != [] && Readable(response.items[0])
    ensures r.Success? ==>
              var item := response.items[0];
              r.value.videoId == videoId && r.value.title == item.title
              && r.value.channelName == item.channelTitle
              && r.value.description == Truncated(item.description)
              && r.value.publishedAt == item.publishedAt[..if |item.publishedAt| < 10 then |item.publishedAt| else 10]
              && Some(r.value.thumbnail) == Thumbnail(item.thumbnails)
              && Some(r.value.duration) == ParsedDuration(item.duration)
              && r.value.views == FormatViewCount(ApiViews(item).value)
  {
    if response.status != 200 then Failure("API request failed")
    else if response.items == [] then Failure("Video not found or private/deleted")
    else
      var item := response.items[0];
      var duration := ParsedDuration(item.duration);
      var views := ApiViews(item);
      var thumbnail := Thumbnail(item.thumbnails);
      if duration.None? then Failure("malformed duration")
      else if views.None? then Failure("malformed view count")
      else if thumbnail.None? then Failure("no thumbnail")
      else
        var p := item.publishedAt;
        Success(Metadata(
          item.title, Truncated(item.description), thumbnail.value, duration.value,
          FormatViewCount(views.value), p[..if |p| < 10 then |p| else 10], item.channelTitle, videoId))
  }

  // ---------------------------------------------------------------------------
  // PyTube (`_get_metadata_from_pytube`)

  /** The properties of a PyTube `YouTube` object the provider reads. */
  datatype PyTubeVideo = PyTubeVideo(
    title: string,
    author: string,
    length: nat,
    views: int,
    publishDate: Option<Date>,
    description: Option<string>,
    thumbnailUrl: string)

  const NoDescription: string := "No description available"

  /** `_get_metadata_from_pytube` once the properties were read; `today` is `datetime.now()`. */
  function FromPyTube(videoId: string, video: PyTubeVideo, today: Date): (m: Metadata)
    ensures m.videoId == videoId && m.title == video.title && m.channelName == video.author
    ensures m.thumbnail == video.thumbnailUrl && m.views == FormatViewCount(video.views)
    ensures m.duration == SecondsToDuration(video.length)
    ensures ReadDuration(m.duration) == Some(video.length)
    ensures m.publishedAt == DateText(video.publishDate.GetOr(today))
    ensures video.description.None? || video.description == Some([]) ==> m.description == NoDescription
    ensures video.description.Some? && video.description.value != [] ==>
              m.description == Truncated(video.description.value)
  {
    SecondsToDurationRoundTrip(video.length);
    Metadata(
      video.title,
      match video.description
      case Some(d) => if d != [] then Truncated(d) else NoDescription
      case None => NoDescription,
      video.thumbnailUrl,
      SecondsToDuration(video.length),
      FormatViewCount(video.views),
      DateText(match video.publishDate case Some(d) => d case None => today),
      video.author,
      videoId)
  }

  // ---------------------------------------------------------------------------
  // yt-dlp (`_get_metadata_from_ytdlp`)

  /** The keys of yt-dlp's info dictionary the provider reads; None is an absent key. */
  datatype YtdlpInfo = YtdlpInfo(
    title: Option<string>,
    description: Option<string>,
    uploader: Option<string>,
    duration: Option<nat>,
    viewCount: Option<int>,
    uploadDate: Option<string>,
    thumbnail: Option<string>)

  const UnknownTitle: string := "Unknown Title"
  const UnknownChannel: string := "Unknown Channel"

  /** `f'https://img.youtube.com/vi/{video_id}/maxresdefault.jpg'`. */
  function DefaultThumbnail(videoId: string): string {
    "https://img.youtube.com/vi/" + videoId + "/maxresdefault.jpg"
  }

  /** `1[0-2]|0[1-9]`: the two-character forms of `%m`, which the regular expression tries first. */
  predicate TwoDigitMonth(t: string) {
    |t| >= 2 && ((t[0] == '1' && '0' <= t[1] <= '2') || (t[0] == '0' && '1' <= t[1] <= '9'))
  }

  /**
   * How many characters `%d` takes at the start of t: the first of
   * `3[01]`, `[12]\d`, `0[1-9]`, `[1-9]` and ` [1-9]` that matches.
   */
  function DayWidth(t: string): (w: Option<nat>)
    ensures w.Some? ==> 1 <= w.value <= 2 && w.value <= |t| && IsDigit(t[w.value - 1])
  {
    if |t| >= 2 && t[0] == '3' && (t[1] == '0' || t[1] == '1') then Some(2)
    else if |t| >= 2 && (t[0] == '1' || t[0] == '2') && IsDigit(t[1]) then Some(2)
    else if |t| >= 2 && t[0] == '0' && '1' <= t[1] <= '9' then Some(2)
    else if |t| >= 1 && '1' <= t[0] <= '9' then Some(1)
    else if |t| >= 2 && t[0] == ' ' && '1' <= t[1] <= '9' then Some(2)
    else None
  }

  /** The value of the `%d` field DayWidth found (`int` skips the space of ` [1-9]`). */
  function DayValue(t: string, w: nat): nat
    requires 1 <= w <= 2 && w <= |t| && IsDigit(t[w - 1])
  {
    if w == 2 && IsDigit(t[0]) then 10 * DigitValue(t[0]) + DigitValue(t[1]) else DigitValue(t[w - 1])
  }

  /**
   * The `%m%d` part: the month alternatives in the order the regular expression
   * tries them, each with the first day alternative that follows it; the
   * result is (month, day, characters used).
   */
  function MonthDay(t: string): Option<(nat, nat, nat)> {
    if TwoDigitMonth(t) && DayWidth(t[2..]).Some? then
      var w := DayWidth(t[2..]).value;
      Some((10 * DigitValue(t[0]) + DigitValue(t[1]), DayValue(t[2..], w), 2 + w))
    else if |t| >= 1 && '1' <= t[0] <= '9' && DayWidth(t[1..]).Some? then
      var w := DayWidth(t[1..]).value;
      Some((DigitValue(t[0]), DayValue(t[1..], w), 1 + w))
    else None
  }

  /**
   * `datetime.strptime(s, '%Y%m%d')`: four digits of year, then the month and
   * day fields as the first regular-expression match finds them; it fails when
   * characters remain or the date does not exist.
   */
  function Strptime(s: string): (d: Option<Date>)
    ensures d.Some? ==> ValidDate(d.value)
  {
    if |s| < 4 || !AllDigits(s[..4]) then None
    else
      match MonthDay(s[4..])
      case None => None
      case Some((month, day, w)) =>
        var date := Date(ParseDec(s[..4]), month, day);
        if 4 + w == |s| && ValidDate(date) then Some(date) else None
  }

  /** The `published_at` of the yt-dlp provider. */
  function UploadDate(uploadDate: string, today: Date): string {
    match Strptime(uploadDate)
    case Some(d) => DateText(d)
    case None => DateText(today)
  }

  /** `_get_metadata_from_ytdlp` once `extract_info` returned. */
  function FromYtdlp(videoId: string, info: YtdlpInfo, today: Date): (m: Metadata)
    ensures m.videoId == videoId
    ensures m.title == info.title.GetOr(UnknownTitle)
    ensures m.channelName == info.uploader.GetOr(UnknownChannel)
    ensures m.thumbnail == info.thumbnail.GetOr(DefaultThumbnail(videoId))
    ensures m.description == Truncated(info.description.GetOr(NoDescription))
    ensures m.duration == SecondsToDuration(info.duration.GetOr(0))
    ensures ReadDuration(m.duration) == Some(info.duration.GetOr(0))
    ensures m.views == FormatViewCount(info.viewCount.GetOr(0))
    ensures m.publishedAt == UploadDate(info.uploadDate.GetOr(Compact(today)), today)
  {
    SecondsToDurationRoundTrip(info.duration.GetOr(0));
    Metadata(
      info.title.GetOr(UnknownTitle),
      Truncated(info.description.GetOr(NoDescription)),
      info.thumbnail.GetOr(DefaultThumbnail(videoId)),
      SecondsToDuration(info.duration.GetOr(0)),
      FormatViewCount(info.viewCount.GetOr(0)),
      UploadDate(info.uploadDate.GetOr(Compact(today)), today),
      info.uploader.GetOr(UnknownChannel),
      videoId)
  }

  // ---------------------------------------------------------------------------
  // Mock (`_get_mock_metadata`)

  const MockTitle: string := "YouTube Video (Unable to fetch title)"
  const MockDescription: string := "Unable to fetch video description at this time."
  const MockDuration: string := "10:30"
  const MockViews: string := "N/A"

  function Mock(videoId: string, today: Date): Metadata {
    Metadata(MockTitle, MockDescription, DefaultThumbnail(videoId), MockDuration, MockViews,
             DateText(today), UnknownChannel, videoId)
  }

  /**
   * The mock record is for the video asked about, dated today, with the default
   * thumbnail for it; every other field is the same fixed text whatever the
   * video, and the description is under the limit.
   */
  lemma MockRecord(videoId: string, today: Date)
    ensures var m := Mock(videoId, today);
            m.videoId == videoId && m.publishedAt == DateText(today)
            && m.thumbnail == DefaultThumbnail(videoId)
            && |m.description| <= DescriptionLimit
    ensures var m := Mock(videoId, today);
            m.title == MockTitle && m.description == MockDescription && m.duration == MockDuration
            && m.views == MockViews && m.channelName == UnknownChannel
    ensures forall otherId: string, otherDay: Date {:trigger Mock(otherId, otherDay)} ::
              var m, o := Mock(videoId, today), Mock(otherId, otherDay);
              o.title == m.title && o.description == m.description && o.duration == m.duration
              && o.views == m.views && o.channelName == m.channelName
  {
  }

  // ---------------------------------------------------------------------------
  // Properties

  /** Truncating twice is truncating once. */
  lemma TruncatedIdempotent(description: string)
    ensures Truncated(Truncated(description)) == Truncated(description)
  {
  }

  /** `int(str(n))` is n. */
  lemma ParseIntOfDec(n: nat)
    ensures ParseInt(Dec(n)) == Some(n as int)
  {
    ParseIntOfDigits(Dec(n));
    ParseDecOfDec(n);
  }

  lemma ParseIntOfDigits(s: string)
    requires s != [] && AllDigits(s)
    ensures ParseInt(s) == Some(ParseDec(s) as int)
  {
    assert IsDigit(s[0]) && IsDigit(s[|s| - 1]);
    StripUnchanged(s);
  }

  /** A zero-padded two-digit field is its tens digit then its units digit. */
  lemma TwoDigits(n: nat)
    requires n < 100
    ensures ZeroPad(n, 2) == [DigitChar(n / 10), DigitChar(n % 10)]
  {
    if n < 10 {
      assert Dec(n) == [DigitChar(n)];
      assert PadZeros(Dec(n), 2) == "0" + Dec(n);
    } else {
      assert Dec(n / 10) == [DigitChar(n / 10)];
    }
  }

  lemma MonthDayOfCompact(month: nat, day: nat)
    requires 1 <= month <= 12 && 1 <= day <= 31
    ensures MonthDay(ZeroPad(month, 2) + ZeroPad(day, 2)) == Some((month, day, 4))
  {
    TwoDigits(month);
    TwoDigits(day);
    var t := ZeroPad(month, 2) + ZeroPad(day, 2);
    assert t[2..] == ZeroPad(day, 2);
    assert TwoDigitMonth(t);
    assert DayWidth(t[2..]) == Some(2);
  }

  /** What `strftime('%Y%m%d')` writes, `strptime(..., '%Y%m%d')` reads back. */
  lemma CompactRoundTrip(d: Date)
    requires ValidDate(d)
    ensures Strptime(Compact(d)) == Some(d)
  {
    var y := ZeroPad(d.year, 4);
    var md := ZeroPad(d.month, 2) + ZeroPad(d.day, 2);
    assert Pow10(4) == 10000;
    PadWidth(d.year, 4);
    PadWidth(d.month, 2);
    PadWidth(d.day, 2);
    var s := Compact(d);
    assert s == y + md;
    assert s[..4] == y;
    assert s[4..] == md;
    MonthDayOfCompact(d.month, d.day);
  }

  /** For a valid date, `%Y-%m-%d` is the eight characters of `%Y%m%d` with dashes after the year and the month. */
  lemma DateTextOfCompact(d: Date)
    requires ValidDate(d)
    ensures var c := Compact(d);
            |c| == 8 && DateText(d) == c[..4] + "-" + c[4..6] + "-" + c[6..]
  {
    assert Pow10(4) == 10000;
    PadWidth(d.year, 4);
    PadWidth(d.month, 2);
    PadWidth(d.day, 2);
    var y, m, dd := ZeroPad(d.year, 4), ZeroPad(d.month, 2), ZeroPad(d.day, 2);
    var c := Compact(d);
    assert c == y + m + dd;
    assert c[..4] == y && c[4..6] == m && c[6..] == dd;
  }

  /** Missing yt-dlp upload date: today's date, as written and read back by `strftime`/`strptime`. */
  lemma YtdlpDefaultDate(videoId: string, info: YtdlpInfo, today: Date)
    requires info.uploadDate.None? && ValidDate(today)
    ensures FromYtdlp(videoId, info, today).publishedAt == DateText(today)
  {
    CompactRoundTrip(today);
  }

  /** A well-formed yt-dlp upload date is rewritten with dashes. */
  lemma YtdlpUploadDate(videoId: string, info: YtdlpInfo, today: Date, d: Date)
    requires info.uploadDate == Some(Compact(d)) && ValidDate(d)
    ensures FromYtdlp(videoId, info, today).publishedAt == DateText(d)
  {
    CompactRoundTrip(d);
  }

  /** A record that failed to parse as a date falls back to today's. */
  lemma YtdlpBadDate(videoId: string, info: YtdlpInfo, today: Date)
    requires info.uploadDate.Some? && Strptime(info.uploadDate.value).None?
    ensures FromYtdlp(videoId, info, today).publishedAt == DateText(today)
  {
  }

  /** `%m` and `%d` accept one-digit forms, so a seven-character date can be read. */
  lemma StrptimeShortForm()
    ensures Strptime("2024115") == Some(Date(2024, 11, 5))
    ensures Strptime("20241301") == None
  {
    assert "2024115"[..4] == "2024";
    assert "2024115"[4..] == "115";
    assert "115"[2..] == "5";
    assert Dec(2024) == "2024";
    ParseDecOfDec(2024);
    assert "20241301"[4..] == "1301";
    assert "1301"[1..] == "301";
  }
}
