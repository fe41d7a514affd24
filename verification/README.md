# process-video relay, modelled in Dafny

The `process-video` edge function is an HTTP relay. It receives `{ "url": … }`
from the front end and derives the platform and a YouTube thumbnail from
that URL. It asks a self-hosted yt-dlp server for the video's details and
answers with a normalised description: title, thumbnail, duration, platform,
up to five video formats and up to three audio formats.

In front of this sits an in-memory, fixed-window rate limiter keyed by
client IP. It allows 10 requests per 60 seconds per client and sweeps
expired records once the store holds more than 1000 of them. When the yt-dlp
server cannot be reached, the relay degrades to a demo description with
status 200.

The model has seven modules, one per concern of the handler:

| file | module | what it holds |
|---|---|---|
| `text.dfy` | `Text` | The JavaScript string built-ins the handler uses: truthiness of an optional string, `trim`, `split(',')[0]`, `includes`, ASCII `toLowerCase`/`toUpperCase`, integer-to-decimal and `padStart`. |
| `rate_limit.dfy` | `RateLimit` | The limiter. Pure `Decide`/`NextStore` specify one call. The class `RateLimiter` holds the store as a `map` and updates it in place: `Sweep` deletes one key at a time in a loop, and `Check` is `checkRateLimit`. The lemmas cover whole traces of calls. |
| `client_key.dfy` | `ClientKey` | `getClientIP`. |
| `platforms.dfy` | `Platforms` | Platform classification, video id, thumbnail and fallback title. |
| `duration.dfy` | `Duration` | `formatDuration` and a reader that inverts it. |
| `formats.dfy` | `Formats` | Filtering, truncating and reshaping the yt-dlp format list. `BuildFormats` builds both lists by pushing entries in loops, and is proved equal to `VideoList`/`AudioList`. |
| `relay.dfy` | `Relay` | The handler's order of answers. Pure `Respond`/`StoreAfter` specify it, and the method `Handle` runs one request against a `RateLimiter` and is proved to follow them. |

Inputs the handler gets from the outside world are parameters:

- the clock reading `now`;
- the request (method, the three IP headers, the body);
- the URL parser, as a function from text to an optional `(hostname, pathname, v)`;
- the outcome of the yt-dlp call (`Failed` or the answer's data).

Two consequences of the handler's order are worth stating, and the model keeps both:

- **A request is counted before its body is read.** A request without a `url` therefore still uses up quota (index.ts:91-123).
- **A body that is not JSON is a server error.** It makes `req.json()` throw, and the outer `catch` answers 500 (index.ts:119, 322-333).

`Platforms.ClassifyHostEndingInX` shows how the substring test behaves as written: `netflix.com` contains `x.com` and so is classified as twitter.

## Model

| member | source | states |
|---|---|---|
| `Text.TrimIsInnerSlice` | supabase/functions/process-video/index.ts:31 | `trim` keeps one contiguous piece `s[i..j]` of its input. Everything before `i` and from `j` on is whitespace, and the piece neither starts nor ends with whitespace. |
| `Text.FirstField` | supabase/functions/process-video/index.ts:31 | `split(',')[0]` is a prefix of the text with no comma in it, and it stops at the first comma or at the end. |
| `Text.Contains` | supabase/functions/process-video/index.ts:145-157 | `includes` is true exactly when the fragment occurs at some position of the text. |
| `Text.NatToString` | supabase/functions/process-video/index.ts:344 | The decimal rendering of a number is non-empty digits that read back as the number. It has no leading zero, and starts with `0` only for zero itself. It is one digit wide exactly for numbers below 10 and at most two below 100. |
| `Text.ToLower` | supabase/functions/process-video/index.ts:142 | `toLowerCase` on ASCII keeps the length and leaves no upper-case letter. Each upper-case letter becomes its lower-case letter, and every other character is kept. |
| `Text.ToUpper` | supabase/functions/process-video/index.ts:210 | `toUpperCase` on ASCII keeps the length and leaves no lower-case letter. Each lower-case letter becomes its capital, and every other character is kept. |
| `Text.PadStart` | supabase/functions/process-video/index.ts:344 | `padStart` gives exactly `max(width, \|s\|)` characters: pad characters followed by the original text. |
| `Text.PadTwoKeepsValue` | supabase/functions/process-video/index.ts:344 | A number below 100, zero-padded to two places, is two digits that read back as the number. |
| `RateLimit.Swept` | supabase/functions/process-video/index.ts:49-55 | The sweep keeps exactly the records that have not expired, unchanged, and adds no key. |
| `RateLimit.NewWindow` | supabase/functions/process-video/index.ts:57-63 | Without a record, or once `now > resetTime`, the call is allowed with 9 left and `resetIn` 60000, and stores `{count: 1, resetTime: now + 60000}`. |
| `RateLimit.CapReached` | supabase/functions/process-video/index.ts:66-72 | At 10 or more in a live window, the call is denied with 0 left and `resetIn = resetTime - now`, and the record is left unchanged. |
| `RateLimit.CountedInWindow` | supabase/functions/process-video/index.ts:74-79 | Below the cap in a live window, the count rises by exactly one and the window end is kept. The call is allowed with `10 - newCount` left and `resetIn = resetTime - now`. |
| `RateLimit.NextStoreValid` | supabase/functions/process-video/index.ts:57-79 | Every stored count stays in 1..10. |
| `RateLimit.OthersUntouched` | supabase/functions/process-video/index.ts:49-62 | Another client's record is kept as it was. It is deleted exactly when the store held more than 1000 records and that record had expired. |
| `RateLimit.NoNewKeys` | supabase/functions/process-video/index.ts:44-80 | A call adds no record except the caller's own. |
| `RateLimit.FreshWindowAfterReset` | supabase/functions/process-video/index.ts:57-79 | After any call, the caller's window ends exactly `resetIn` after `now`. If the limiter's very next call is the caller's own and comes later than that, it opens a fresh window. |
| `RateLimit.FreshAfterOthers` | supabase/functions/process-video/index.ts:49-63 | Other clients' calls never prolong a client's window. Once it has ended, or when there is none, the client's next call opens a fresh window with 9 left, whatever other clients did in between. |
| `RateLimit.FreshWindowAfterResetDespiteOthers` | supabase/functions/process-video/index.ts:57-79 | After a client's call and any number of other clients' calls, the same client's next request, made later than `resetIn` after its own call, opens a fresh window with 9 left. |
| `RateLimit.WindowCap` | supabase/functions/process-video/index.ts:57-79 | However other clients interleave, a client's calls within its live window are allowed at most `10 - count` more times. |
| `RateLimit.AtMostMaxPerWindow` | supabase/functions/process-video/index.ts:57-79 | From the call that opens a window until that window ends, at most 10 of the client's calls are allowed. |
| `RateLimit.DeniedUntilReset` | supabase/functions/process-video/index.ts:66-72 | Once a client's count is 10, every further call it makes in that window is denied. |
| `RateLimit.AllAllowedWithinRoom` | supabase/functions/process-video/index.ts:57-79 | While the client's record has room for all its coming calls, every one of them is allowed, however other clients interleave. This is the converse of `WindowCap`. |
| `RateLimit.LiveRecordAfter` | supabase/functions/process-video/index.ts:49-79 | Inside a live window, the client's record survives every call and keeps its window end. Its count becomes `min(10, count + its own calls)`. |
| `RateLimit.CapIsExact` | supabase/functions/process-video/index.ts:57-79 | A client that opens a window and calls 9 more times before it ends has all 10 calls allowed, whatever other clients do. A call after those, in the same window, is denied with a wait of 0 to 60000 ms. |
| `RateLimit.WaitAtMostWindow` | supabase/functions/process-video/index.ts:57-79 | If no window ends more than 60000 ms after `now` and the clock has not gone back, the reported wait is at most 60000 ms. The next store keeps that bound. |
| `RateLimit.WaitAtMostWindowAlong` | supabase/functions/process-video/index.ts:57-79 | Along any run of calls with non-decreasing clock readings, starting from a store with that bound, every call reports a wait of at most 60000 ms. |
| `RateLimit.RateLimiter.constructor` | supabase/functions/process-video/index.ts:21 | The store starts empty, which satisfies the count invariant. |
| `RateLimit.RateLimiter.Sweep` | supabase/functions/process-video/index.ts:49-55 | The in-place deletion loop leaves exactly `Swept(old store, now)` and keeps counts in 1..10. |
| `RateLimit.RateLimiter.Check` | supabase/functions/process-video/index.ts:44-80 | The in-place call answers `Decide`, leaves the store equal to `NextStore`, and keeps counts in 1..10. |
| `ClientKey.ForwardedClientIsFirstElement` | supabase/functions/process-video/index.ts:29-32 | The key taken from `x-forwarded-for` is the part before the first comma, trimmed. It is a comma-free slice of the header with no whitespace at either end, and only whitespace lies between it and the start of the header or the first comma. |
| `ClientKey.ClientIPPriority` | supabase/functions/process-video/index.ts:27-42 | Each header is used exactly when all earlier ones are absent or empty and it is not. If none qualifies, the key is `"unknown"`. |
| `ClientKey.EmptyHeaderIsAbsent` | supabase/functions/process-video/index.ts:27-42 | A header sent as the empty string chooses the same key as a missing header. |
| `Platforms.ClassifyIsFirstMatch` | supabase/functions/process-video/index.ts:142-157 | The if-chain equals the first-match rule over youtube, facebook, instagram, tiktok, twitter and vimeo, in that order. |
| `Platforms.FirstMatchSpec` | supabase/functions/process-video/index.ts:142-157 | Under the first-match rule, the result is unknown exactly when nothing matches. Otherwise it is the platform at some position `k` that matches, and no platform before `k` matches. |
| `Platforms.ClassifySpec` | supabase/functions/process-video/index.ts:142-157 | The platform is one of the six or unknown. It is unknown exactly when no marker occurs in the hostname. Otherwise a marker of the chosen platform occurs and no earlier platform matches. |
| `Platforms.ClassifyShortLink` | supabase/functions/process-video/index.ts:145-146 | `youtu.be` is youtube. |
| `Platforms.ClassifyFacebookPage` | supabase/functions/process-video/index.ts:147-148 | `www.facebook.com` is facebook. |
| `Platforms.ClassifyUnrelatedHost` | supabase/functions/process-video/index.ts:143-157 | `example.com` is unknown. |
| `Platforms.ClassifyHostEndingInX` | supabase/functions/process-video/index.ts:153-154 | `netflix.com` is twitter, because it contains `x.com`. |
| `Platforms.ThumbnailRoundTrip` | supabase/functions/process-video/index.ts:161-174 | The video id read back from the derived thumbnail is the URL's id exactly when the platform is youtube and the id is non-empty. No id can be read from the placeholder. |
| `Platforms.ShortLinkId` | supabase/functions/process-video/index.ts:166-167 | For a `youtu.be` host, the id is the path after its leading `/`. |
| `Platforms.QueryParameterId` | supabase/functions/process-video/index.ts:168-169 | For any other host, the id is the `v` query parameter when it is present and non-empty, and the empty string otherwise. |
| `Platforms.FallbackTitleNamesPlatform` | supabase/functions/process-video/index.ts:251 | The fallback title lower-cases to `"<platform> video"` and starts with an upper-case letter. After that letter it is exactly the rest of the name followed by `" Video"`, as in `"Youtube Video"`. |
| `Duration.SplitSeconds` | supabase/functions/process-video/index.ts:339-341 | Hours, minutes and seconds recompose the input. Minutes and seconds are below 60, and under an hour there are no hours. |
| `Duration.DurationShape` | supabase/functions/process-video/index.ts:338-347 | From one hour up, the text is `H:MM:SS`: the hours as their plain numeral, then two-digit minutes and seconds. Below one hour it is `M:SS` with the minutes as their plain numeral. Every field reads back as its part. |
| `Duration.DurationRoundTrip` | supabase/functions/process-video/index.ts:338-347 | Reading the formatted text back gives the number of seconds. |
| `Duration.HourExample` | supabase/functions/process-video/index.ts:338-347 | 3661 seconds is `"1:01:01"`. |
| `Duration.MinuteExample` | supabase/functions/process-video/index.ts:338-347 | 65 seconds is `"1:05"`. |
| `Formats.Filter` | supabase/functions/process-video/index.ts:203-205 | `filter` keeps only qualifying entries and never lengthens the list. |
| `Formats.FilterPosition` | supabase/functions/process-video/index.ts:203-205 | Every qualifying entry is kept, at the index given by how many qualifying entries precede it. |
| `Formats.FilterOrigin` | supabase/functions/process-video/index.ts:203-205 | Every kept entry is a qualifying entry of the input, with exactly as many qualifying entries before it as its index. |
| `Formats.FilterEmpty` | supabase/functions/process-video/index.ts:203-205 | The filtered list is empty exactly when no entry qualifies. |
| `Formats.BuildFormats` | supabase/functions/process-video/index.ts:197-248 | The push loops and fallbacks produce exactly `VideoList` and `AudioList`, with 1..5 and 1..3 entries. |
| `Formats.FallbackExactlyWhenNoneQualify` | supabase/functions/process-video/index.ts:231-248 | A placeholder is used exactly when the answer has no format list or no entry of it qualifies. The video placeholder links to the upstream `url`, or else to the request URL; the audio placeholder links to `#`. |
| `Formats.VideoEntryPlacement` | supabase/functions/process-video/index.ts:203-214 | A video entry (`ext` mp4, neither codec `none`) preceded by fewer than five others is listed, reshaped, at the index equal to that number. |
| `Formats.VideoEntryOrigin` | supabase/functions/process-video/index.ts:203-214 | Every non-placeholder video entry at index `i` is the reshaped video entry preceded by exactly `i` others, with `i < 5`. |
| `Formats.AudioEntryPlacement` | supabase/functions/process-video/index.ts:217-228 | An audio-only entry (`vcodec` none, `acodec` not none) preceded by fewer than three others is listed, reshaped, at the index equal to that number. |
| `Formats.AudioEntryOrigin` | supabase/functions/process-video/index.ts:217-228 | Every non-placeholder audio entry at index `i` is the reshaped audio-only entry preceded by exactly `i` others, with `i < 3`. |
| `Formats.ListBounds` | supabase/functions/process-video/index.ts:197-248 | `formats` has 1 to 5 entries and `audioFormats` has 1 to 3. |
| `Formats.VideoListLength` | supabase/functions/process-video/index.ts:207 | The video list has `min(n, 5)` entries for `n` qualifying entries, or 1 when `n` is 0. |
| `Relay.CeilDiv` | supabase/functions/process-video/index.ts:103 | `Math.ceil(x / d)` is the `r` with `(r - 1) * d < x <= r * d`. |
| `Relay.Handle` | supabase/functions/process-video/index.ts:86-335 | Running a request against the shared limiter answers `Respond`, leaves the store equal to `StoreAfter`, and keeps counts in 1..10. |
| `Relay.PreflightNotCounted` | supabase/functions/process-video/index.ts:87-89 | `OPTIONS` is answered at once and leaves the store unchanged. |
| `Relay.QuotaSpentBeforeValidation` | supabase/functions/process-video/index.ts:91-123 | Every other request is counted whatever its body, and its answer is what the verdict and the body give. |
| `Relay.RateLimitedExactlyWhenDenied` | supabase/functions/process-video/index.ts:97-116 | The answer is 429 exactly when the limiter denies. `retryAfter` is then non-negative, and is the wait rounded up to whole seconds. |
| `Relay.RefusedExactlyWhenDenied` | supabase/functions/process-video/index.ts:97-103 | Once the request is counted, the answer is a refusal exactly when the verdict denies it, with `retryAfter = ceil(resetIn / 1000)`. |
| `Relay.RetryAfterAtMostMinute` | supabase/functions/process-video/index.ts:93-113 | With a store holding no window longer than one minute and a clock that has not gone back, `retryAfter` on a 429 is between 0 and 60. |
| `Relay.DeniedWaitNonNegative` | supabase/functions/process-video/index.ts:66-72 | A denial's `resetIn` is never negative. |
| `Relay.BodyChecks` | supabase/functions/process-video/index.ts:118-139 | Once the request is allowed, the body is checked in this order. A non-JSON body gives 500 and a missing or empty `url` gives 400 "URL is required". A URL that does not parse gives 400 "Invalid URL format"; one that parses gives 200, processed exactly when the yt-dlp call succeeds. |
| `Relay.ProcessedResponse` | supabase/functions/process-video/index.ts:250-279 | A 200 answer carries 1..5 video and 1..3 audio formats, and the platform of the lower-cased hostname. A processed answer also reports `remaining` in 0..9 and `resetIn` in whole seconds. |
| `Relay.RemainingInRange` | supabase/functions/process-video/index.ts:74-79 | An allowed call leaves 0..9 requests in the window. |
| `Relay.AnsweredResponse` | supabase/functions/process-video/index.ts:250-279 | A 200 answer comes from an allowed request whose `url` parsed. Its lists are within bounds, and it reports the verdict's `remaining` and `resetIn`. |
| `Relay.ServiceFailure` | supabase/functions/process-video/index.ts:281-319 | When the yt-dlp call fails, the answer is still 200: the demo title, duration "Unknown", one "Fallback" video entry linking to the requested URL, and one audio entry linking to `#`. |
| `Relay.DurationShown` | supabase/functions/process-video/index.ts:253 | The duration text is "Unknown" exactly when the answer gives none or zero. Otherwise it reads back as the answer's seconds. |
| `Relay.ThumbnailShown` | supabase/functions/process-video/index.ts:252 | Without an upstream thumbnail, the shown one carries the URL's YouTube id exactly when the URL is a YouTube link with a non-empty id. |

## Left out

- **Network and I/O.** The `fetch` to the yt-dlp server, `req.json()`, building `Response` objects and their CORS and rate-limit headers, and `console` logging are not modelled. The yt-dlp outcome and the parsed body are inputs.
- **URL parsing.** `new URL(…)` and `searchParams` are a library not modelled here. The parser is a parameter that yields the hostname, the path and the `v` parameter.
- **The clock.** `Date.now()` is the parameter `now`.
- **Host case.** Hostnames are lower-cased with ASCII case mapping. A parsed hostname is ASCII (punycode), so this is exact.
- **Container case.** `ext.toUpperCase()` is modelled as ASCII upper-casing; non-ASCII extensions are not modelled.
- **Floating point.**
  - `filesize` and `abr` are modelled as the text the handler prints for them. The `toFixed(1)` arithmetic on megabytes is not modelled.
  - `height` and `duration` are non-negative whole numbers. Negative values are not modelled; the handler would render them as text such as `-1:-5` or `-5p`. A fractional duration and its `Math.floor` are not modelled.
  - Rendering numbers of `1e21` and above in exponent form is not modelled.
- **Non-string and malformed fields.**
  - A `url` body member that is truthy but not a string is not modelled.
  - A JSON body of `null` throws like text that is not JSON, and is folded into `Malformed`.
  - Upstream fields of unexpected types are not modelled. Some make the inner `try` throw and are folded into `Failed`: a `null` answer or format entry, or an audio entry whose `ext` is not a string. Others reach the answer unchanged (a numeric `title` or `thumbnail`) or as `NaN` text (a non-numeric `duration` or `filesize`). A `formats` value that is not an array is treated as a missing list.
- **Concurrency.** Several function instances share nothing; within one instance, interleaved requests are modelled one after another.
- **Restart.** The store's reset on function restart is the constructor's empty store.
