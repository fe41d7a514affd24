/**
 * How the relay turns the extraction service's raw format list into the
 * two lists it returns: downloadable videos (with sound, MP4, at most
 * five) and audio-only tracks (at most three), each entry reshaped with
 * default labels, and a placeholder entry when a list would be empty.
 *
 * `VideoList` and `AudioList` specify the result; `BuildFormats` builds
 * it the way the handler does, by pushing entries onto two lists.
 */
module Formats {
  import opened Text

  /** One entry of the service's `formats` list, as far as the relay reads it.
      `height` is `None` when absent; `abr` and `filesize` are `None` when
      absent or zero and otherwise hold the text the relay prints for them. */
  datatype RawFormat = RawFormat(
    vcodec: Option<string>,
    acodec: Option<string>,
    ext: Option<string>,
    height: Option<nat>,
    formatNote: Option<string>,
    abr: Option<string>,
    filesize: Option<string>,
    url: Option<string>)

  /** One entry of a returned list. */
  datatype Format = Format(quality: string, format: string, size: string, downloadUrl: string)

  const MaxVideo: nat := 5
  const MaxAudio: nat := 3

  /** A video with sound in an MP4 container. */
  predicate IsVideo(f: RawFormat)
  {
    f.vcodec != Some("none") && f.acodec != Some("none") && f.ext == Some("mp4")
  }

  /** An audio-only track. */
  predicate IsAudioOnly(f: RawFormat)
  {
    f.vcodec == Some("none") && f.acodec != Some("none")
  }

  // ---------------------------------------------------------------------
  // filter and slice
  // ---------------------------------------------------------------------

  /** `s.filter(p)`: the elements of `s` satisfying `p`, in order. */
  function Filter<T>(s: seq<T>, p: T -> bool): (r: seq<T>)
    ensures |r| <= |s|
    ensures forall i :: 0 <= i < |r| ==> p(r[i])
  {
    if s == [] then []
    else if p(s[0]) then [s[0]] + Filter(s[1..], p)
    else Filter(s[1..], p)
  }

  /** `s.slice(0, n)` */
  function Take<T>(s: seq<T>, n: nat): (r: seq<T>)
  {
    if |s| <= n then s else s[..n]
  }

  lemma {:induction false} FilterAppend<T>(a: seq<T>, b: seq<T>, p: T -> bool)
    ensures Filter(a + b, p) == Filter(a, p) + Filter(b, p)
    decreases |a|
  {
    if a == [] {
      assert a + b == b;
    } else {
      assert (a + b)[0] == a[0] && (a + b)[1..] == a[1..] + b;
      FilterAppend(a[1..], b, p);
    }
  }

  /** Every element satisfying `p` appears in the filtered list, at the
      position given by how many satisfying elements precede it. */
  lemma FilterPosition<T>(s: seq<T>, p: T -> bool, k: nat)
    requires k < |s| && p(s[k])
    ensures |Filter(s[..k], p)| < |Filter(s, p)|
    ensures Filter(s, p)[|Filter(s[..k], p)|] == s[k]
  {
    assert s == s[..k] + ([s[k]] + s[k + 1..]);
    FilterAppend(s[..k], [s[k]] + s[k + 1..], p);
    assert ([s[k]] + s[k + 1..])[1..] == s[k + 1..];
  }

  /** Every element of the filtered list comes from a position `k` of `s`
      that satisfies `p` and has exactly `i` satisfying elements before it. */
  lemma {:induction false} FilterOrigin<T>(s: seq<T>, p: T -> bool, i: nat) returns (k: nat)
    requires i < |Filter(s, p)|
    ensures k < |s| && p(s[k]) && Filter(s, p)[i] == s[k] && |Filter(s[..k], p)| == i
    decreases |s|
  {
    if p(s[0]) && i == 0 {
      k := 0;
      assert s[..0] == [];
    } else {
      var j := if p(s[0]) then i - 1 else i;
      var k' := FilterOrigin(s[1..], p, j);
      k := k' + 1;
      assert s[..k] == [s[0]] + s[1..][..k'];
      FilterAppend([s[0]], s[1..][..k'], p);
      assert [s[0]][1..] == [];
    }
  }

  /** The filtered list is empty exactly when nothing satisfies `p`. */
  lemma FilterEmpty<T>(s: seq<T>, p: T -> bool)
    ensures Filter(s, p) == [] <==> forall i :: 0 <= i < |s| ==> !p(s[i])
  {
    if exists i :: 0 <= i < |s| && p(s[i]) {
      var i :| 0 <= i < |s| && p(s[i]);
      FilterPosition(s, p, i);
    } else {
      FilterNone(s, p);
    }
  }

  lemma {:induction false} FilterNone<T>(s: seq<T>, p: T -> bool)
    requires forall i :: 0 <= i < |s| ==> !p(s[i])
    ensures Filter(s, p) == []
    decreases |s|
  {
    if s != [] {
      assert !p(s[0]);
      FilterNone(s[1..], p);
    }
  }

  // ---------------------------------------------------------------------
  // Entries
  // ---------------------------------------------------------------------

  function SizeText(f: RawFormat): string
  {
    if f.filesize.Some? then f.filesize.value + " MB" else "Variable"
  }

  function LinkOrHash(f: RawFormat): string
  {
    if Truthy(f.url) then f.url.value else "#"
  }

  /** A video entry: quality from the height, else the format note, else
      "Unknown"; the container upper-cased, else "MP4". */
  function VideoEntry(f: RawFormat): Format
  {
    Format(
      if f.height.Some? && f.height.value != 0 then NatToString(f.height.value) + "p"
      else if Truthy(f.formatNote) then f.formatNote.value
      else "Unknown",
      if Truthy(f.ext) then ToUpper(f.ext.value) else "MP4",
      SizeText(f),
      LinkOrHash(f))
  }

  /** An audio entry: quality from the bitrate, else "Audio"; the container
      upper-cased, else "Audio". */
  function AudioEntry(f: RawFormat): Format
  {
    Format(
      if f.abr.Some? then f.abr.value + "kbps" else "Audio",
      if Truthy(f.ext) then ToUpper(f.ext.value) else "Audio",
      SizeText(f),
      LinkOrHash(f))
  }

  /** The placeholder video entry: it links to the service's top-level `url`
      when given, else to the requested URL. */
  function VideoFallback(upstreamUrl: Option<string>, url: string): Format
  {
    Format("Best Available", "MP4", "Variable", if Truthy(upstreamUrl) then upstreamUrl.value else url)
  }

  /** The placeholder audio entry. */
  const AudioFallback: Format := Format("Audio", "M4A", "Variable", "#")

  // ---------------------------------------------------------------------
  // The two lists
  // ---------------------------------------------------------------------

  /** The raw entries that become video entries: the first five videos. */
  function ChosenVideo(raw: Option<seq<RawFormat>>): seq<RawFormat>
  {
    if raw.Some? then Take(Filter(raw.value, IsVideo), MaxVideo) else []
  }

  /** The raw entries that become audio entries: the first three tracks. */
  function ChosenAudio(raw: Option<seq<RawFormat>>): seq<RawFormat>
  {
    if raw.Some? then Take(Filter(raw.value, IsAudioOnly), MaxAudio) else []
  }

  function VideoList(raw: Option<seq<RawFormat>>, upstreamUrl: Option<string>, url: string): seq<Format>
  {
    var c := ChosenVideo(raw);
    if |c| == 0 then [VideoFallback(upstreamUrl, url)]
    else seq(|c|, i requires 0 <= i < |c| => VideoEntry(c[i]))
  }

  function AudioList(raw: Option<seq<RawFormat>>): seq<Format>
  {
    var c := ChosenAudio(raw);
    if |c| == 0 then [AudioFallback]
    else seq(|c|, i requires 0 <= i < |c| => AudioEntry(c[i]))
  }

  /** Builds both lists as the handler does: filter, slice, push each
      reshaped entry, then push a placeholder onto a list left empty. */
  method BuildFormats(raw: Option<seq<RawFormat>>, upstreamUrl: Option<string>, url: string)
    returns (formats: seq<Format>, audioFormats: seq<Format>)
    ensures formats == VideoList(raw, upstreamUrl, url)
    ensures audioFormats == AudioList(raw)
    ensures 1 <= |formats| <= MaxVideo && 1 <= |audioFormats| <= MaxAudio
  {
    formats := [];
    audioFormats := [];
    if raw.Some? {
      var videoFormats := Filter(raw.value, IsVideo);
      var chosen := Take(videoFormats, MaxVideo);
      for i := 0 to |chosen|
        invariant |formats| == i
        invariant forall j :: 0 <= j < i ==> formats[j] == VideoEntry(chosen[j])
      {
        formats := formats + [VideoEntry(chosen[i])];
      }

      var audioOnly := Filter(raw.value, IsAudioOnly);
      var chosenAudio := Take(audioOnly, MaxAudio);
      for i := 0 to |chosenAudio|
        invariant |audioFormats| == i
        invariant forall j :: 0 <= j < i ==> audioFormats[j] == AudioEntry(chosenAudio[j])
      {
        audioFormats := audioFormats + [AudioEntry(chosenAudio[i])];
      }
    }

    if |formats| == 0 {
      formats := formats + [VideoFallback(upstreamUrl, url)];
    }
    if |audioFormats| == 0 {
      audioFormats := audioFormats + [AudioFallback];
    }
  }

  // ---------------------------------------------------------------------
  // What the lists are
  // ---------------------------------------------------------------------

  /** The placeholder is used exactly when no raw entry qualifies (or the
      service gave no list at all). */
  lemma FallbackExactlyWhenNoneQualify(raw: Option<seq<RawFormat>>, upstreamUrl: Option<string>, url: string)
    ensures (|ChosenVideo(raw)| == 0) <==> (raw.None? || forall i :: 0 <= i < |raw.value| ==> !IsVideo(raw.value[i]))
    ensures (|ChosenAudio(raw)| == 0) <==> (raw.None? || forall i :: 0 <= i < |raw.value| ==> !IsAudioOnly(raw.value[i]))
    ensures |ChosenVideo(raw)| == 0 ==> VideoList(raw, upstreamUrl, url) == [VideoFallback(upstreamUrl, url)]
    ensures |ChosenAudio(raw)| == 0 ==> AudioList(raw) == [AudioFallback]
  {
    if raw.Some? {
      FilterEmpty(raw.value, IsVideo);
      FilterEmpty(raw.value, IsAudioOnly);
    }
  }

  /** A raw video entry is listed exactly when fewer than five videos
      precede it, and then at the position given by how many do. */
  lemma VideoEntryPlacement(raws: seq<RawFormat>, upstreamUrl: Option<string>, url: string, k: nat)
    requires k < |raws| && IsVideo(raws[k])
    ensures var before := |Filter(raws[..k], IsVideo)|;
      var list := VideoList(Some(raws), upstreamUrl, url);
      before < MaxVideo ==> before < |list| && list[before] == VideoEntry(raws[k])
  {
    FilterPosition(raws, IsVideo, k);
  }

  /** Conversely, every listed video entry other than the placeholder is
      the reshaped form of a raw video entry `raws[k]` preceded by exactly
      `i` videos; so the list holds the first five videos, in order. */
  lemma VideoEntryOrigin(raws: seq<RawFormat>, upstreamUrl: Option<string>, url: string, i: nat)
    returns (k: nat)
    requires |ChosenVideo(Some(raws))| > 0 && i < |VideoList(Some(raws), upstreamUrl, url)|
    ensures k < |raws| && IsVideo(raws[k]) && |Filter(raws[..k], IsVideo)| == i && i < MaxVideo
    ensures VideoList(Some(raws), upstreamUrl, url)[i] == VideoEntry(raws[k])
  {
    k := FilterOrigin(raws, IsVideo, i);
  }

  /** The same two facts for audio tracks and the first three of them. */
  lemma AudioEntryPlacement(raws: seq<RawFormat>, k: nat)
    requires k < |raws| && IsAudioOnly(raws[k])
    ensures var before := |Filter(raws[..k], IsAudioOnly)|;
      var list := AudioList(Some(raws));
      before < MaxAudio ==> before < |list| && list[before] == AudioEntry(raws[k])
  {
    FilterPosition(raws, IsAudioOnly, k);
  }

  lemma AudioEntryOrigin(raws: seq<RawFormat>, i: nat) returns (k: nat)
    requires |ChosenAudio(Some(raws))| > 0 && i < |AudioList(Some(raws))|
    ensures k < |raws| && IsAudioOnly(raws[k]) && |Filter(raws[..k], IsAudioOnly)| == i && i < MaxAudio
    ensures AudioList(Some(raws))[i] == AudioEntry(raws[k])
  {
    k := FilterOrigin(raws, IsAudioOnly, i);
  }

  /** Neither list is ever empty, and neither exceeds its cap. */
  lemma ListBounds(raw: Option<seq<RawFormat>>, upstreamUrl: Option<string>, url: string)
    ensures 1 <= |VideoList(raw, upstreamUrl, url)| <= MaxVideo
    ensures 1 <= |AudioList(raw)| <= MaxAudio
  {
  }

  /** With at least five videos the list is full; with fewer it holds them all. */
  lemma VideoListLength(raws: seq<RawFormat>, upstreamUrl: Option<string>, url: string)
    ensures var n := |Filter(raws, IsVideo)|;
      |VideoList(Some(raws), upstreamUrl, url)| == if n == 0 then 1 else if n < MaxVideo then n else MaxVideo
  {
  }
}
