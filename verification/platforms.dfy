/**
 * What the relay derives from the requested URL alone: the platform,
 * decided by substring tests on the lower-cased hostname in a fixed order,
 * the YouTube video id and thumbnail, and the title used when the
 * extraction service gives none.
 */
module Platforms {
  import opened Text

  datatype Platform = YouTube | Facebook | Instagram | TikTok | Twitter | Vimeo | Unknown

  /** The platform's name as it appears in the response. */
  function Name(p: Platform): string
  {
    match p
    case YouTube => "youtube"
    case Facebook => "facebook"
    case Instagram => "instagram"
    case TikTok => "tiktok"
    case Twitter => "twitter"
    case Vimeo => "vimeo"
    case Unknown => "unknown"
  }

  /** The known platforms, in the order they are tested. */
  const Known: seq<Platform> := [YouTube, Facebook, Instagram, TikTok, Twitter, Vimeo]

  /** The hostname fragments that identify each platform. */
  function Markers(p: Platform): seq<string>
  {
    match p
    case YouTube => ["youtube.com", "youtu.be"]
    case Facebook => ["facebook.com", "fb.com"]
    case Instagram => ["instagram.com"]
    case TikTok => ["tiktok.com"]
    case Twitter => ["twitter.com", "x.com"]
    case Vimeo => ["vimeo.com"]
    case Unknown => []
  }

  /** Some marker of `p` occurs in `hostname`. */
  predicate Matches(hostname: string, p: Platform)
  {
    exists i :: 0 <= i < |Markers(p)| && Contains(hostname, Markers(p)[i])
  }

  /** The classification as the handler writes it: a chain of `includes`
      tests on the (already lower-cased) hostname. */
  function Classify(hostname: string): Platform
  {
    if Contains(hostname, "youtube.com") || Contains(hostname, "youtu.be") then YouTube
    else if Contains(hostname, "facebook.com") || Contains(hostname, "fb.com") then Facebook
    else if Contains(hostname, "instagram.com") then Instagram
    else if Contains(hostname, "tiktok.com") then TikTok
    else if Contains(hostname, "twitter.com") || Contains(hostname, "x.com") then Twitter
    else if Contains(hostname, "vimeo.com") then Vimeo
    else Unknown
  }

  /** Reference definition: the first platform of `order` that matches. */
  function FirstMatch(hostname: string, order: seq<Platform>): Platform
  {
    if order == [] then Unknown
    else if Matches(hostname, order[0]) then order[0]
    else FirstMatch(hostname, order[1..])
  }

  /** The chain is the first-match rule over the known platforms. */
  lemma ClassifyIsFirstMatch(hostname: string)
    ensures Classify(hostname) == FirstMatch(hostname, Known)
  {
    MatchesSpelledOut(hostname);
    FirstMatchOverKnown(hostname);
  }

  /** Each known platform matches exactly when one of its markers occurs. */
  lemma MatchesSpelledOut(h: string)
    ensures Matches(h, YouTube) == (Contains(h, "youtube.com") || Contains(h, "youtu.be"))
    ensures Matches(h, Facebook) == (Contains(h, "facebook.com") || Contains(h, "fb.com"))
    ensures Matches(h, Instagram) == Contains(h, "instagram.com")
    ensures Matches(h, TikTok) == Contains(h, "tiktok.com")
    ensures Matches(h, Twitter) == (Contains(h, "twitter.com") || Contains(h, "x.com"))
    ensures Matches(h, Vimeo) == Contains(h, "vimeo.com")
  {
    assert Markers(YouTube)[0] == "youtube.com" && Markers(YouTube)[1] == "youtu.be";
    assert Markers(Facebook)[0] == "facebook.com" && Markers(Facebook)[1] == "fb.com";
    assert Markers(Instagram)[0] == "instagram.com";
    assert Markers(TikTok)[0] == "tiktok.com";
    assert Markers(Twitter)[0] == "twitter.com" && Markers(Twitter)[1] == "x.com";
    assert Markers(Vimeo)[0] == "vimeo.com";
  }

  /** The first-match rule over the known platforms, unrolled. */
  lemma FirstMatchOverKnown(h: string)
    ensures FirstMatch(h, Known) ==
      if Matches(h, YouTube) then YouTube
      else if Matches(h, Facebook) then Facebook
      else if Matches(h, Instagram) then Instagram
      else if Matches(h, TikTok) then TikTok
      else if Matches(h, Twitter) then Twitter
      else if Matches(h, Vimeo) then Vimeo
      else Unknown
  {
    var o5 := [Vimeo];
    var o4 := [Twitter] + o5;
    var o3 := [TikTok] + o4;
    var o2 := [Instagram] + o3;
    var o1 := [Facebook] + o2;
    assert Known == [YouTube] + o1;
    assert o5[1..] == [];
    assert FirstMatch(h, o5) == if Matches(h, Vimeo) then Vimeo else Unknown;
    assert o4[1..] == o5 && o3[1..] == o4 && o2[1..] == o3 && o1[1..] == o2 && Known[1..] == o1;
    assert FirstMatch(h, o4) == if Matches(h, Twitter) then Twitter else FirstMatch(h, o5);
    assert FirstMatch(h, o3) == if Matches(h, TikTok) then TikTok else FirstMatch(h, o4);
    assert FirstMatch(h, o2) == if Matches(h, Instagram) then Instagram else FirstMatch(h, o3);
    assert FirstMatch(h, o1) == if Matches(h, Facebook) then Facebook else FirstMatch(h, o2);
  }

  /** First-match rule, in general: the result is `Unknown` exactly when no
      platform of `order` matches; otherwise it is a platform of `order`
      that matches, and every platform tested before it does not. */
  lemma {:induction false} FirstMatchSpec(hostname: string, order: seq<Platform>)
    requires Unknown !in order
    ensures var p := FirstMatch(hostname, order);
      (p == Unknown <==> forall i :: 0 <= i < |order| ==> !Matches(hostname, order[i]))
      && (p != Unknown ==> exists k :: (0 <= k < |order| && order[k] == p && Matches(hostname, p)
           && forall i :: 0 <= i < k ==> !Matches(hostname, order[i])))
  {
    if order != [] && !Matches(hostname, order[0]) {
      FirstMatchSpec(hostname, order[1..]);
      var p := FirstMatch(hostname, order);
      if p != Unknown {
        var k :| 0 <= k < |order[1..]| && order[1..][k] == p && Matches(hostname, p)
          && forall i :: 0 <= i < k ==> !Matches(hostname, order[1..][i]);
        assert order[k + 1] == p;
        forall i | 0 <= i < k + 1 ensures !Matches(hostname, order[i]) {
          if i > 0 { assert order[i] == order[1..][i - 1]; }
        }
      }
      forall i | 0 <= i < |order| && p == Unknown ensures !Matches(hostname, order[i]) {
        if i > 0 { assert order[i] == order[1..][i - 1]; }
      }
    } else if order != [] {
      assert order[0] != Unknown;
    }
  }

  /** The classifier answers `unknown` exactly when no marker of any known
      platform occurs in the hostname; otherwise some marker of the chosen
      platform occurs in it and none of any platform tested earlier does. */
  lemma ClassifySpec(hostname: string)
    ensures Classify(hostname) in Known || Classify(hostname) == Unknown
    ensures Classify(hostname) == Unknown
      <==> forall i, j :: 0 <= i < |Known| && 0 <= j < |Markers(Known[i])| ==> !Occurs(hostname, Markers(Known[i])[j])
    ensures Classify(hostname) != Unknown ==>
      exists k :: (0 <= k < |Known| && Known[k] == Classify(hostname)
        && (exists j :: 0 <= j < |Markers(Known[k])| && Occurs(hostname, Markers(Known[k])[j]))
        && forall i :: 0 <= i < k ==> !Matches(hostname, Known[i]))
  {
    ClassifyIsFirstMatch(hostname);
    FirstMatchSpec(hostname, Known);
  }

  /** A text does not occur where its first character does not. */
  lemma AbsentFirstChar(s: string, t: string)
    requires |t| > 0 && t[0] !in s
    ensures !Contains(s, t)
  {
  }

  /** Example: a short link is YouTube. */
  lemma ClassifyShortLink()
    ensures Classify("youtu.be") == YouTube
  {
    assert OccursAt("youtu.be", "youtu.be", 0);
  }

  /** Example: a Facebook page is Facebook. */
  lemma ClassifyFacebookPage()
    ensures Classify("www.facebook.com") == Facebook
  {
    var fb := "www.facebook.com";
    assert OccursAt(fb, "facebook.com", 4);
    AbsentFirstChar(fb, "youtube.com");
    AbsentFirstChar(fb, "youtu.be");
  }

  /** Example: an unrelated host is unknown. */
  lemma ClassifyUnrelatedHost(ex: string)
    requires ex == "example.com"
    ensures Classify(ex) == Unknown
  {
    AbsentFirstChar(ex, "youtube.com");
    AbsentFirstChar(ex, "youtu.be");
    AbsentFirstChar(ex, "facebook.com");
    AbsentFirstChar(ex, "fb.com");
    AbsentFirstChar(ex, "instagram.com");
    AbsentFirstChar(ex, "tiktok.com");
    AbsentFirstChar(ex, "twitter.com");
    AbsentFirstChar(ex, "vimeo.com");
    ExampleLacksShortTwitter(ex);
  }

  lemma ExampleLacksShortTwitter(ex: string)
    requires ex == "example.com"
    ensures !Contains(ex, "x.com")
  {
    forall i | 0 <= i <= |ex| - 5 ensures !OccursAt(ex, "x.com", i) {
      assert ex[i..i + 5][0] == ex[i] && ex[i..i + 5][1] == ex[i + 1];
      assert ex[1] == 'x' && ex[2] == 'a';
      assert ex[0] == 'e' && ex[3] == 'm' && ex[4] == 'p' && ex[5] == 'l' && ex[6] == 'e';
    }
  }

  /** Example: the tests are substring tests, so a host that merely ends
      in "x.com" is taken for Twitter. */
  lemma ClassifyHostEndingInX(nf: string)
    requires nf == "netflix.com"
    ensures Classify(nf) == Twitter
  {
    AbsentFirstChar(nf, "youtube.com");
    AbsentFirstChar(nf, "youtu.be");
    assert !Contains(nf, "facebook.com") && !Contains(nf, "instagram.com");
    NetflixLacksEarlierMarkers(nf);
    assert OccursAt(nf, "x.com", 6);
  }

  lemma NetflixLacksEarlierMarkers(nf: string)
    requires nf == "netflix.com"
    ensures !Contains(nf, "fb.com") && !Contains(nf, "tiktok.com") && !Contains(nf, "twitter.com")
  {
    assert nf[0] == 'n' && nf[1] == 'e' && nf[2] == 't' && nf[3] == 'f' && nf[4] == 'l' && nf[5] == 'i';
    forall i | 0 <= i <= |nf| - 6 ensures !OccursAt(nf, "fb.com", i) {
      assert nf[i..i + 6][0] == nf[i] && nf[i..i + 6][1] == nf[i + 1];
    }
    forall i | 0 <= i <= |nf| - 10 ensures !OccursAt(nf, "tiktok.com", i) {
      assert nf[i..i + 10][0] == nf[i] && nf[i..i + 10][1] == nf[i + 1];
    }
    assert nf[..11][1] != "twitter.com"[1];
  }

  // ---------------------------------------------------------------------
  // YouTube video id and thumbnail
  // ---------------------------------------------------------------------

  const PlaceholderHost: string := "https://via.placeholder.com"
  const Placeholder: string := PlaceholderHost + "/1280x720/FF385C/FFFFFF?text=Video+Thumbnail"
  const ThumbPrefix: string := "https://img.youtube.com/vi/"
  const ThumbSuffix: string := "/maxresdefault.jpg"

  /** The video id: for a `youtu.be` host the path without its first
      character, otherwise the `v` query parameter, or the empty string. */
  function VideoId(hostname: string, pathname: string, v: Option<string>): string
  {
    if Contains(hostname, "youtu.be") then (if |pathname| == 0 then "" else pathname[1..])
    else if Truthy(v) then v.value
    else ""
  }

  /** The thumbnail derived from the URL: the YouTube still for a YouTube
      URL with a non-empty video id, the placeholder image otherwise. */
  function DerivedThumbnail(p: Platform, hostname: string, pathname: string, v: Option<string>): string
  {
    if p == YouTube && VideoId(hostname, pathname, v) != "" then
      ThumbPrefix + VideoId(hostname, pathname, v) + ThumbSuffix
    else Placeholder
  }

  /** Reads the video id back out of a YouTube thumbnail URL. */
  function ThumbnailVideoId(t: string): Option<string>
  {
    if |t| > |ThumbPrefix| + |ThumbSuffix| && t[..|ThumbPrefix|] == ThumbPrefix
       && t[|t| - |ThumbSuffix|..] == ThumbSuffix
    then Some(t[|ThumbPrefix|..|t| - |ThumbSuffix|])
    else None
  }

  /** The thumbnail carries the video id and nothing else decides it: the
      id read back from it is the URL's video id exactly when the platform
      is YouTube and that id is non-empty, and no id can be read from the
      placeholder. */
  lemma ThumbnailRoundTrip(p: Platform, hostname: string, pathname: string, v: Option<string>)
    ensures var id := VideoId(hostname, pathname, v);
      ThumbnailVideoId(DerivedThumbnail(p, hostname, pathname, v))
        == if p == YouTube && id != "" then Some(id) else None
  {
    var id := VideoId(hostname, pathname, v);
    if p == YouTube && id != "" {
      var t := ThumbPrefix + id + ThumbSuffix;
      assert t[..|ThumbPrefix|] == ThumbPrefix;
      assert t[|t| - |ThumbSuffix|..] == ThumbSuffix;
      assert t[|ThumbPrefix|..|t| - |ThumbSuffix|] == id;
    } else {
      assert Placeholder[..|ThumbPrefix|][8] != ThumbPrefix[8];
    }
  }

  /** A short link's id is its path after the leading slash. */
  lemma ShortLinkId(hostname: string, id: string, v: Option<string>)
    requires Contains(hostname, "youtu.be")
    ensures VideoId(hostname, "/" + id, v) == id
  {
  }

  /** Any other host takes the id from the `v` query parameter, or the
      empty string when that is missing or empty. */
  lemma QueryParameterId(hostname: string, pathname: string, v: Option<string>)
    requires !Contains(hostname, "youtu.be")
    ensures Truthy(v) ==> VideoId(hostname, pathname, v) == v.value
    ensures !Truthy(v) ==> VideoId(hostname, pathname, v) == ""
  {
  }

  // ---------------------------------------------------------------------
  // Fallback title
  // ---------------------------------------------------------------------

  /** The platform name with its first letter upper-cased, then " Video". */
  function FallbackTitle(p: Platform): string
  {
    var n := Name(p);
    [UpperChar(n[0])] + n[1..] + " Video"
  }

  /** The title shown: the service's title when it gave a non-empty one,
      otherwise the fallback title. */
  function Title(upstream: Option<string>, p: Platform): string
  {
    if Truthy(upstream) then upstream.value else FallbackTitle(p)
  }

  /** Every platform name is a non-empty lower-case word. */
  lemma NameIsLowerWord(p: Platform)
    ensures |Name(p)| > 0 && forall i :: 0 <= i < |Name(p)| ==> 'a' <= Name(p)[i] <= 'z'
  {
  }

  /** A lower-case word with its first letter capitalised lowers back to itself. */
  lemma LowerCapitalised(n: string)
    requires |n| > 0 && forall i :: 0 <= i < |n| ==> 'a' <= n[i] <= 'z'
    ensures 'A' <= UpperChar(n[0]) <= 'Z'
    ensures ToLower([UpperChar(n[0])] + n[1..]) == n
  {
    var c := [UpperChar(n[0])] + n[1..];
    forall i | 0 <= i < |n| ensures ToLower(c)[i] == n[i] {
      if i > 0 {
        assert c[i] == n[i];
      }
    }
  }

  /** The fallback title is the platform name with its first letter made
      upper-case and the rest kept as it is, followed by " Video": it
      lowers to "<name> video", starts upper-case, and after its first
      letter it is exactly the rest of the name and " Video". */
  lemma FallbackTitleNamesPlatform(p: Platform)
    ensures ToLower(FallbackTitle(p)) == Name(p) + " video"
    ensures 'A' <= FallbackTitle(p)[0] <= 'Z'
    ensures FallbackTitle(p)[1..] == Name(p)[1..] + " Video"
  {
    var n := Name(p);
    NameIsLowerWord(p);
    LowerCapitalised(n);
    ToLowerAppend([UpperChar(n[0])] + n[1..], " Video");
    assert ToLower(" Video") == " video";
  }
}
