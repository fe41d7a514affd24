/**
 * The relay's request handler: the order in which it answers a request
 * (preflight, rate limit, body, URL, then the extraction service), and the
 * video description it assembles from the service's answer or, when the
 * service fails, from the URL alone.
 *
 * `Respond` and `StoreAfter` say what one request is answered and what
 * the limiter's store holds afterwards; `Handle` performs the request
 * against a `RateLimiter` the way the handler does, and is proved to
 * follow them.
 */
module Relay {
  import opened Text
  import RateLimit
  import ClientKey
  import Platforms
  import Duration
  import Formats

  // ---------------------------------------------------------------------
  // Inputs
  // ---------------------------------------------------------------------

  /** What a successful URL parse yields, as far as the handler reads it. */
  datatype ParsedUrl = ParsedUrl(hostname: string, pathname: string, v: Option<string>)

  /** The request body: text that is not JSON, or a JSON object whose
      `url` member is given (`Some`) or absent (`None`). */
  datatype Body = Malformed | Json(url: Option<string>)

  datatype Request = Request(httpMethod: string, headers: ClientKey.Headers, body: Body)

  /** The top-level members of the extraction service's answer that the
      handler reads; `duration` is `None` when absent. */
  datatype UpstreamData = UpstreamData(
    title: Option<string>,
    thumbnail: Option<string>,
    duration: Option<nat>,
    formats: Option<seq<Formats.RawFormat>>,
    url: Option<string>)

  /** The outcome of the call to the extraction service: a failure (no
      answer, a non-2xx status, or a body that is not JSON) or its data. */
  datatype Upstream = Failed | Answered(data: UpstreamData)

  // ---------------------------------------------------------------------
  // Outputs
  // ---------------------------------------------------------------------

  datatype VideoInfo = VideoInfo(
    title: string,
    thumbnail: string,
    duration: string,
    platform: Platforms.Platform,
    formats: seq<Formats.Format>,
    audioFormats: seq<Formats.Format>)

  /** The responses the handler gives. */
  datatype Response =
    | Preflight                                              // CORS preflight
    | TooManyRequests(retryAfter: int)                       // 429
    | BadRequest(error: string)                              // 400
    | ServerError                                            // 500
    | Processed(info: VideoInfo, remaining: int, resetIn: int) // 200
    | Degraded(info: VideoInfo)                              // 200, "fallback": true

  /** The HTTP status of a response. */
  function Status(r: Response): int
  {
    match r
    case Preflight => 200
    case TooManyRequests(_) => 429
    case BadRequest(_) => 400
    case ServerError => 500
    case Processed(_, _, _) => 200
    case Degraded(_) => 200
  }

  const UrlRequired: string := "URL is required"
  const InvalidUrl: string := "Invalid URL format"
  const DemoTitle: string := "Demo Video (yt-dlp server unavailable)"

  /** `Math.ceil(x / d)` for a positive divisor. */
  function CeilDiv(x: int, d: int): (r: int)
    requires d > 0
    ensures (r - 1) * d < x <= r * d
  {
    var q := (-x) / d;
    assert -x == q * d + (-x) % d;
    -q
  }

  // ---------------------------------------------------------------------
  // The video description
  // ---------------------------------------------------------------------

  /** What the handler learns from the URL alone: the platform of the
      lower-cased hostname and the thumbnail derived from the URL. */
  function PlatformOf(u: ParsedUrl): Platforms.Platform
  {
    Platforms.Classify(ToLower(u.hostname))
  }

  function UrlThumbnail(u: ParsedUrl): string
  {
    Platforms.DerivedThumbnail(PlatformOf(u), ToLower(u.hostname), u.pathname, u.v)
  }

  /** The duration shown: the formatted length when the service gave a
      non-zero one, otherwise "Unknown". */
  function DurationText(d: Option<nat>): string
  {
    if d.Some? && d.value != 0 then Duration.FormatDuration(d.value) else "Unknown"
  }

  /** The description assembled from the service's answer. */
  function Described(d: UpstreamData, u: ParsedUrl, url: string): VideoInfo
  {
    var p := PlatformOf(u);
    VideoInfo(
      Platforms.Title(d.title, p),
      if Truthy(d.thumbnail) then d.thumbnail.value else UrlThumbnail(u),
      DurationText(d.duration),
      p,
      Formats.VideoList(d.formats, d.url, url),
      Formats.AudioList(d.formats))
  }

  /** The description given when the service fails. */
  function FallbackInfo(u: ParsedUrl, url: string): VideoInfo
  {
    VideoInfo(
      DemoTitle,
      UrlThumbnail(u),
      "Unknown",
      PlatformOf(u),
      [Formats.Format("Fallback", "MP4", "Unknown", url)],
      [Formats.Format("Fallback Audio", "Audio", "Unknown", "#")])
  }

  // ---------------------------------------------------------------------
  // One request
  // ---------------------------------------------------------------------

  predicate IsPreflight(req: Request)
  {
    req.httpMethod == "OPTIONS"
  }

  /** The answer to `req` at `now`, given the limiter's store before the
      request, the URL parser and the outcome of the service call. */
  function Respond(store: RateLimit.Store, req: Request, now: int,
                   parseUrl: string -> Option<ParsedUrl>, upstream: Upstream): Response
  {
    if IsPreflight(req) then Preflight
    else Answer(RateLimit.Decide(store, ClientKey.ClientIP(req.headers), now), req.body, parseUrl, upstream)
  }

  /** The answer once the request has been counted, given the limiter's
      verdict: refused, or the body, the URL and the service call in turn. */
  function Answer(v: RateLimit.Verdict, body: Body,
                  parseUrl: string -> Option<ParsedUrl>, upstream: Upstream): Response
  {
    if !v.allowed then TooManyRequests(CeilDiv(v.resetIn, 1000))
    else
      match body
      case Malformed => ServerError
      case Json(url) =>
        if !Truthy(url) then BadRequest(UrlRequired)
        else
          match parseUrl(url.value)
          case None => BadRequest(InvalidUrl)
          case Some(u) =>
            match upstream
            case Failed => Degraded(FallbackInfo(u, url.value))
            case Answered(d) => Processed(Described(d, u, url.value), v.remaining, CeilDiv(v.resetIn, 1000))
  }

  /** The store after `req`: a preflight leaves it alone, every other
      request is counted, whatever its body. */
  function StoreAfter(store: RateLimit.Store, req: Request, now: int): RateLimit.Store
  {
    if IsPreflight(req) then store
    else RateLimit.NextStore(store, ClientKey.ClientIP(req.headers), now)
  }

  /** Handles one request against the shared limiter, in the handler's order. */
  method Handle(limiter: RateLimit.RateLimiter, req: Request, now: int,
                parseUrl: string -> Option<ParsedUrl>, upstream: Upstream)
    returns (resp: Response)
    requires limiter.Valid()
    modifies limiter
    ensures limiter.Valid()
    ensures resp == Respond(old(limiter.store), req, now, parseUrl, upstream)
    ensures limiter.store == StoreAfter(old(limiter.store), req, now)
  {
    if req.httpMethod == "OPTIONS" {
      return Preflight;
    }

    var clientIP := ClientKey.ClientIP(req.headers);
    var rateLimit := limiter.Check(clientIP, now);
    if !rateLimit.allowed {
      return TooManyRequests(CeilDiv(rateLimit.resetIn, 1000));
    }

    if req.body.Malformed? {
      return ServerError;
    }
    var url := req.body.url;
    if !Truthy(url) {
      return BadRequest(UrlRequired);
    }
    var parsed := parseUrl(url.value);
    if parsed.None? {
      return BadRequest(InvalidUrl);
    }
    var videoUrl := parsed.value;

    var hostname := ToLower(videoUrl.hostname);
    var platform := Platforms.Classify(hostname);
    var thumbnail := Platforms.DerivedThumbnail(platform, hostname, videoUrl.pathname, videoUrl.v);

    if upstream.Failed? {
      return Degraded(VideoInfo(
        DemoTitle, thumbnail, "Unknown", platform,
        [Formats.Format("Fallback", "MP4", "Unknown", url.value)],
        [Formats.Format("Fallback Audio", "Audio", "Unknown", "#")]));
    }
    var data := upstream.data;
    var formats, audioFormats := Formats.BuildFormats(data.formats, data.url, url.value);
    var info := VideoInfo(
      Platforms.Title(data.title, platform),
      if Truthy(data.thumbnail) then data.thumbnail.value else thumbnail,
      DurationText(data.duration),
      platform,
      formats,
      audioFormats);
    return Processed(info, rateLimit.remaining, CeilDiv(rateLimit.resetIn, 1000));
  }

  // ---------------------------------------------------------------------
  // The order of the answers
  // ---------------------------------------------------------------------

  /** A preflight is answered at once and is not counted. */
  lemma PreflightNotCounted(store: RateLimit.Store, req: Request, now: int,
                            parseUrl: string -> Option<ParsedUrl>, upstream: Upstream)
    requires IsPreflight(req)
    ensures Respond(store, req, now, parseUrl, upstream) == Preflight
    ensures StoreAfter(store, req, now) == store
  {
  }

  /** The rate check comes before the body is looked at: a non-preflight
      request is counted whatever its body, and its answer is the one the
      verdict and the body give. */
  lemma QuotaSpentBeforeValidation(store: RateLimit.Store, req: Request, body: Body, now: int,
                                   parseUrl: string -> Option<ParsedUrl>, upstream: Upstream)
    requires !IsPreflight(req)
    ensures var other := req.(body := body);
      var v := RateLimit.Decide(store, ClientKey.ClientIP(req.headers), now);
      StoreAfter(store, other, now) == StoreAfter(store, req, now)
      && StoreAfter(store, req, now) == RateLimit.NextStore(store, ClientKey.ClientIP(req.headers), now)
      && Respond(store, other, now, parseUrl, upstream) == Answer(v, body, parseUrl, upstream)
  {
  }

  /** A request is refused with 429 exactly when the limiter denies it, and
      then Retry-After is the wait until the window ends, in whole seconds
      rounded up: never negative, and covering the wait. */
  lemma RateLimitedExactlyWhenDenied(store: RateLimit.Store, req: Request, now: int,
                                     parseUrl: string -> Option<ParsedUrl>, upstream: Upstream)
    requires !IsPreflight(req)
    ensures var v := RateLimit.Decide(store, ClientKey.ClientIP(req.headers), now);
      var r := Respond(store, req, now, parseUrl, upstream);
      (r.TooManyRequests? <==> !v.allowed)
      && (r.TooManyRequests? ==>
            Status(r) == 429 && r.retryAfter >= 0
            && (r.retryAfter - 1) * 1000 < v.resetIn <= r.retryAfter * 1000)
  {
    var key := ClientKey.ClientIP(req.headers);
    DeniedWaitNonNegative(store, key, now);
    RefusedExactlyWhenDenied(RateLimit.Decide(store, key, now), req.body, parseUrl, upstream);
  }

  /** When the clock has not run backwards since the store last kept the
      one-window bound, Retry-After is at most 60 seconds. */
  lemma RetryAfterAtMostMinute(store: RateLimit.Store, earlier: int, req: Request, now: int,
                               parseUrl: string -> Option<ParsedUrl>, upstream: Upstream)
    requires !IsPreflight(req)
    requires RateLimit.WindowsBounded(store, earlier) && earlier <= now
    ensures var r := Respond(store, req, now, parseUrl, upstream);
      r.TooManyRequests? ==> 0 <= r.retryAfter <= 60
  {
    var key := ClientKey.ClientIP(req.headers);
    RateLimitedExactlyWhenDenied(store, req, now, parseUrl, upstream);
    RateLimit.WaitAtMostWindow(store, key, earlier, now);
  }

  lemma DeniedWaitNonNegative(store: RateLimit.Store, key: string, now: int)
    ensures !RateLimit.Decide(store, key, now).allowed ==> RateLimit.Decide(store, key, now).resetIn >= 0
  {
  }

  lemma RefusedExactlyWhenDenied(v: RateLimit.Verdict, body: Body,
                                 parseUrl: string -> Option<ParsedUrl>, upstream: Upstream)
    ensures var r := Answer(v, body, parseUrl, upstream);
      (r.TooManyRequests? <==> !v.allowed)
      && (r.TooManyRequests? ==> Status(r) == 429 && r.retryAfter == CeilDiv(v.resetIn, 1000))
  {
  }

  /** The body checks, in order, once the request is allowed: text that is
      not JSON is a server error (500), a missing or empty `url` is 400 "URL
      is required", a URL that does not parse is 400 "Invalid URL format",
      and a URL that parses is answered 200. */
  lemma BodyChecks(v: RateLimit.Verdict, body: Body,
                   parseUrl: string -> Option<ParsedUrl>, upstream: Upstream)
    requires v.allowed
    ensures var r := Answer(v, body, parseUrl, upstream);
      (body.Malformed? ==> r == ServerError && Status(r) == 500)
      && (body.Json? && !Truthy(body.url) ==> r == BadRequest(UrlRequired) && Status(r) == 400)
      && ((body.Json? && Truthy(body.url) && parseUrl(body.url.value).None?)
            ==> r == BadRequest(InvalidUrl) && Status(r) == 400)
      && ((body.Json? && Truthy(body.url) && parseUrl(body.url.value).Some?)
            ==> Status(r) == 200 && (r.Processed? <==> upstream.Answered?))
  {
  }

  /** A processed request reports the limiter's remaining allowance, which
      lies in 0..MaxRequests - 1, and the window's end in whole seconds;
      the video lists are never empty and within their caps, and the
      platform is that of the lower-cased hostname. */
  lemma ProcessedResponse(store: RateLimit.Store, req: Request, now: int,
                          parseUrl: string -> Option<ParsedUrl>, upstream: Upstream)
    requires RateLimit.ValidStore(store)
    ensures var r := Respond(store, req, now, parseUrl, upstream);
      var v := RateLimit.Decide(store, ClientKey.ClientIP(req.headers), now);
      (r.Processed? || r.Degraded?) ==>
        1 <= |r.info.formats| <= Formats.MaxVideo
        && 1 <= |r.info.audioFormats| <= Formats.MaxAudio
        && req.body.Json? && Truthy(req.body.url) && parseUrl(req.body.url.value).Some?
        && r.info.platform == Platforms.Classify(ToLower(parseUrl(req.body.url.value).value.hostname))
        && (r.Processed? ==>
              r.remaining == v.remaining && 0 <= r.remaining < RateLimit.MaxRequests
              && r.resetIn == CeilDiv(v.resetIn, 1000))
  {
    var v := RateLimit.Decide(store, ClientKey.ClientIP(req.headers), now);
    RemainingInRange(store, ClientKey.ClientIP(req.headers), now);
    AnsweredResponse(v, req.body, parseUrl, upstream);
  }

  lemma RemainingInRange(store: RateLimit.Store, key: string, now: int)
    requires RateLimit.ValidStore(store)
    ensures var v := RateLimit.Decide(store, key, now);
      v.allowed ==> 0 <= v.remaining < RateLimit.MaxRequests
  {
  }

  lemma AnsweredResponse(v: RateLimit.Verdict, body: Body,
                         parseUrl: string -> Option<ParsedUrl>, upstream: Upstream)
    ensures var r := Answer(v, body, parseUrl, upstream);
      (r.Processed? || r.Degraded?) ==>
        1 <= |r.info.formats| <= Formats.MaxVideo
        && 1 <= |r.info.audioFormats| <= Formats.MaxAudio
        && v.allowed && body.Json? && Truthy(body.url) && parseUrl(body.url.value).Some?
        && r.info.platform == Platforms.Classify(ToLower(parseUrl(body.url.value).value.hostname))
        && (r.Processed? ==> r.remaining == v.remaining && r.resetIn == CeilDiv(v.resetIn, 1000))
  {
    var r := Answer(v, body, parseUrl, upstream);
    if r.Processed? {
      var d := upstream.data;
      Formats.ListBounds(d.formats, d.url, body.url.value);
    }
  }

  /** When the service fails, the answer is still a 200: the demo
      description, whose only entries are labelled fallbacks and whose
      video entry links to the requested URL. */
  lemma ServiceFailure(v: RateLimit.Verdict, body: Body, parseUrl: string -> Option<ParsedUrl>)
    requires v.allowed && body.Json? && Truthy(body.url) && parseUrl(body.url.value).Some?
    ensures var r := Answer(v, body, parseUrl, Failed);
      r.Degraded? && Status(r) == 200
      && r.info.title == DemoTitle && r.info.duration == "Unknown"
      && |r.info.formats| == 1 && r.info.formats[0].downloadUrl == body.url.value
      && r.info.formats[0].quality == "Fallback"
      && |r.info.audioFormats| == 1 && r.info.audioFormats[0].downloadUrl == "#"
  {
  }

  // ---------------------------------------------------------------------
  // What the description carries
  // ---------------------------------------------------------------------

  /** The shown duration reads back as the service's number of seconds,
      and is "Unknown" exactly when the service gave none or zero. */
  lemma DurationShown(d: Option<nat>)
    ensures DurationText(d) == "Unknown" <==> d.None? || d.value == 0
    ensures d.Some? && d.value != 0 ==> Duration.ParseDuration(DurationText(d)) == d
  {
    if d.Some? && d.value != 0 {
      Duration.DurationRoundTrip(d.value);
      Duration.DurationShape(d.value);
      assert DurationText(d)[0] != 'U';
    }
  }

  /** Without a thumbnail from the service, the one shown carries the
      URL's YouTube video id exactly when the URL is a YouTube link with a
      non-empty id, and is the placeholder otherwise. */
  lemma ThumbnailShown(d: UpstreamData, u: ParsedUrl, url: string)
    requires !Truthy(d.thumbnail)
    ensures var id := Platforms.VideoId(ToLower(u.hostname), u.pathname, u.v);
      Platforms.ThumbnailVideoId(Described(d, u, url).thumbnail)
        == if PlatformOf(u) == Platforms.YouTube && id != "" then Some(id) else None
  {
    Platforms.ThumbnailRoundTrip(PlatformOf(u), ToLower(u.hostname), u.pathname, u.v);
  }
}
