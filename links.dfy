/**
 * Link resolution of the provider (SuperStreamMovie2k.kt:143-200): the page
 * url is checked against the hoster shapes, the embed page is fetched and
 * parsed, and every `video`/`source` element with a non-empty `src` becomes
 * a `VideoLink` labelled with a hoster name and a quality, both inferred from
 * the media url by ordered substring checks.
 */
module Links {
  import opened Wrappers
  import opened Text
  import opened Hosters

  /** `VideoLink(hosterName, url, quality)`. */
  datatype VideoLink = VideoLink(hosterName: string, url: string, quality: string)

  /**
   * An element of a parsed page, in document order: its tag name as the HTML
   * parser normalises it, and its `src` attribute when it has one.
   */
  datatype Element = Element(tag: string, src: Option<string>)

  /** Result of `Jsoup.connect(url).get()`: the page's elements, or an `IOException`. */
  datatype FetchOutcome = Page(elements: seq<Element>) | IOFailure

  // ---------------------------------------------------------------------------
  // Labelling by ordered substring checks
  // ---------------------------------------------------------------------------

  /** One arm of a `when` over `link.contains(needle, ignoreCase)`. */
  datatype LabelRule = LabelRule(needle: string, ignoreCase: bool, name: string)

  predicate RuleApplies(rule: LabelRule, link: string) {
    if rule.ignoreCase then ContainsIgnoreCase(link, rule.needle) else Contains(link, rule.needle)
  }

  /** Rule `i` is the first of `rules` that applies to `link`. */
  ghost predicate FirstApplying(rules: seq<LabelRule>, link: string, i: int) {
    0 <= i < |rules| && RuleApplies(rules[i], link) && forall j :: 0 <= j < i ==> !RuleApplies(rules[j], link)
  }

  /** Reference semantics of a `when` chain: the label of the first rule that applies, else `fallback`. */
  function FirstLabel(rules: seq<LabelRule>, link: string, fallback: string): (r: string)
    ensures (forall j :: 0 <= j < |rules| ==> !RuleApplies(rules[j], link)) ==> r == fallback
    ensures forall i :: FirstApplying(rules, link, i) ==> r == rules[i].name
  {
    if |rules| == 0 then fallback
    else if RuleApplies(rules[0], link) then rules[0].name
    else
      var r := FirstLabel(rules[1..], link, fallback);
      assert forall i :: FirstApplying(rules, link, i) ==> i > 0 && FirstApplying(rules[1..], link, i - 1);
      r
  }

  const UnknownHoster: string := "Unbekannt"

  /** The arms of `determineHosterName`, in declared order. */
  const HosterRules: seq<LabelRule> := [
    LabelRule("dood.", false, "Dood"),
    LabelRule("streamtape.", false, "Streamtape"),
    LabelRule("voe.", false, "Voe"),
    LabelRule("vinovo.", false, "Vinovo"),
    LabelRule("filemoon.", false, "Filemoon"),
    LabelRule("mixdrop.", false, "Mixdrop"),
    LabelRule("dropload.", false, "Dropload"),
    LabelRule("supervideo.", false, "Supervideo"),
    LabelRule("swiftload.", false, "Swiftload")
  ]

  /** The ten names `determineHosterName` can return. */
  const HosterNames: set<string> :=
    {"Dood", "Streamtape", "Voe", "Vinovo", "Filemoon", "Mixdrop", "Dropload", "Supervideo", "Swiftload", UnknownHoster}

  /** `determineHosterName(link)`. */
  function DetermineHosterName(link: string): (r: string)
    ensures r in HosterNames
  {
    if Contains(link, "dood.") then "Dood"
    else if Contains(link, "streamtape.") then "Streamtape"
    else if Contains(link, "voe.") then "Voe"
    else if Contains(link, "vinovo.") then "Vinovo"
    else if Contains(link, "filemoon.") then "Filemoon"
    else if Contains(link, "mixdrop.") then "Mixdrop"
    else if Contains(link, "dropload.") then "Dropload"
    else if Contains(link, "supervideo.") then "Supervideo"
    else if Contains(link, "swiftload.") then "Swiftload"
    else UnknownHoster
  }

  /** The `when` chain of `determineHosterName` is the rule table read first-match-wins. */
  lemma HosterNameByTable(link: string)
    ensures DetermineHosterName(link) == FirstLabel(HosterRules, link, UnknownHoster)
    ensures forall i :: FirstApplying(HosterRules, link, i) ==> DetermineHosterName(link) == HosterRules[i].name
    ensures DetermineHosterName(link) == UnknownHoster <==> forall j :: 0 <= j < |HosterRules| ==> !RuleApplies(HosterRules[j], link)
  {
    var rs := HosterRules;
    assert rs[8..][1..] == rs[9..];
    assert FirstLabel(rs[8..], link, UnknownHoster) == if Contains(link, "swiftload.") then "Swiftload" else UnknownHoster;
    assert rs[7..][1..] == rs[8..];
    assert FirstLabel(rs[7..], link, UnknownHoster) == if Contains(link, "supervideo.") then "Supervideo" else FirstLabel(rs[8..], link, UnknownHoster);
    assert rs[6..][1..] == rs[7..];
    assert FirstLabel(rs[6..], link, UnknownHoster) == if Contains(link, "dropload.") then "Dropload" else FirstLabel(rs[7..], link, UnknownHoster);
    assert rs[5..][1..] == rs[6..];
    assert FirstLabel(rs[5..], link, UnknownHoster) == if Contains(link, "mixdrop.") then "Mixdrop" else FirstLabel(rs[6..], link, UnknownHoster);
    assert rs[4..][1..] == rs[5..];
    assert FirstLabel(rs[4..], link, UnknownHoster) == if Contains(link, "filemoon.") then "Filemoon" else FirstLabel(rs[5..], link, UnknownHoster);
    assert rs[3..][1..] == rs[4..];
    assert FirstLabel(rs[3..], link, UnknownHoster) == if Contains(link, "vinovo.") then "Vinovo" else FirstLabel(rs[4..], link, UnknownHoster);
    assert rs[2..][1..] == rs[3..];
    assert FirstLabel(rs[2..], link, UnknownHoster) == if Contains(link, "voe.") then "Voe" else FirstLabel(rs[3..], link, UnknownHoster);
    assert rs[1..][1..] == rs[2..];
    assert FirstLabel(rs[1..], link, UnknownHoster) == if Contains(link, "streamtape.") then "Streamtape" else FirstLabel(rs[2..], link, UnknownHoster);
    assert rs[0..][1..] == rs[1..];
    assert FirstLabel(rs[0..], link, UnknownHoster) == if Contains(link, "dood.") then "Dood" else FirstLabel(rs[1..], link, UnknownHoster);
    assert rs[0..] == rs;
  }

  // ---------------------------------------------------------------------------
  // Quality
  // ---------------------------------------------------------------------------

  const Uhd: string := "UHD (4K)"
  const FullHd: string := "Full HD (1080p)"
  const Hd: string := "HD (720p)"
  const Sd: string := "SD"
  const StandardQuality: string := "Standard"

  /** The arms of `determineQuality`, in declared order; "4k" and "sd" ignore case, the others do not. */
  const QualityRules: seq<LabelRule> := [
    LabelRule("4k", true, Uhd),
    LabelRule("1080p", false, FullHd),
    LabelRule("720p", false, Hd),
    LabelRule("sd", true, Sd)
  ]

  /** The five labels `determineQuality` can return. */
  const QualityLabels: set<string> := {Uhd, FullHd, Hd, Sd, StandardQuality}

  /** `determineQuality(link)`. */
  function DetermineQuality(link: string): (r: string)
    ensures r in QualityLabels
  {
    if ContainsIgnoreCase(link, "4k") then Uhd
    else if Contains(link, "1080p") then FullHd
    else if Contains(link, "720p") then Hd
    else if ContainsIgnoreCase(link, "sd") then Sd
    else StandardQuality
  }

  /** The `when` chain of `determineQuality` is the rule table read first-match-wins. */
  lemma QualityByTable(link: string)
    ensures DetermineQuality(link) == FirstLabel(QualityRules, link, StandardQuality)
    ensures forall i :: FirstApplying(QualityRules, link, i) ==> DetermineQuality(link) == QualityRules[i].name
    ensures DetermineQuality(link) == StandardQuality <==> forall j :: 0 <= j < |QualityRules| ==> !RuleApplies(QualityRules[j], link)
  {
    var rs := QualityRules;
    assert rs[3..][1..] == rs[4..];
    assert FirstLabel(rs[3..], link, StandardQuality) == if ContainsIgnoreCase(link, "sd") then Sd else StandardQuality;
    assert rs[2..][1..] == rs[3..];
    assert FirstLabel(rs[2..], link, StandardQuality) == if Contains(link, "720p") then Hd else FirstLabel(rs[3..], link, StandardQuality);
    assert rs[1..][1..] == rs[2..];
    assert FirstLabel(rs[1..], link, StandardQuality) == if Contains(link, "1080p") then FullHd else FirstLabel(rs[2..], link, StandardQuality);
    assert FirstLabel(rs, link, StandardQuality) == if ContainsIgnoreCase(link, "4k") then Uhd else FirstLabel(rs[1..], link, StandardQuality);
  }

  /** A two-character needle occurs, ignoring case, exactly when some neighbouring pair matches it. */
  lemma ContainsPairIgnoreCase(s: string, a: char, b: char)
    ensures ContainsIgnoreCase(s, [a, b]) <==>
      exists i :: 0 <= i && i + 1 < |s| && CharEqualsIgnoreCase(s[i], a) && CharEqualsIgnoreCase(s[i + 1], b)
  {
    var pair := [a, b];
    if ContainsIgnoreCase(s, pair) {
      var i :| OccursIgnoreCaseAt(s, pair, i);
      assert CharEqualsIgnoreCase(s[i + 0], pair[0]);
      assert CharEqualsIgnoreCase(s[i + 1], pair[1]);
    }
    if exists i :: 0 <= i && i + 1 < |s| && CharEqualsIgnoreCase(s[i], a) && CharEqualsIgnoreCase(s[i + 1], b) {
      var i :| 0 <= i && i + 1 < |s| && CharEqualsIgnoreCase(s[i], a) && CharEqualsIgnoreCase(s[i + 1], b);
      forall k | 0 <= k < 2 ensures CharEqualsIgnoreCase(s[i + k], pair[k]) {}
      assert OccursIgnoreCaseAt(s, pair, i);
    }
  }

  /**
   * The link is labelled UHD exactly when a '4' is directly followed by 'k',
   * 'K' or the Kelvin sign, whatever else it contains.
   */
  lemma UhdExactly(link: string)
    ensures DetermineQuality(link) == Uhd <==>
      exists i :: 0 <= i && i + 1 < |link| && link[i] == '4' && (link[i + 1] == 'k' || link[i + 1] == 'K' || link[i + 1] == '\U{212A}')
  {
    ContainsPairIgnoreCase(link, '4', 'k');
    forall c ensures CharEqualsIgnoreCase(c, '4') <==> c == '4' {
      FoldDigit(c, '4');
    }
    forall c ensures CharEqualsIgnoreCase(c, 'k') <==> c == 'k' || c == 'K' || c == '\U{212A}' {
      FoldK(c);
    }
  }

  lemma NoUhdMarker(link: string)
    requires forall i :: 0 <= i < |link| ==> link[i] != '4'
    ensures !ContainsIgnoreCase(link, "4k")
  {
    ContainsPairIgnoreCase(link, '4', 'k');
  }

  lemma NoSdMarker(link: string)
    requires forall i :: 0 <= i < |link| ==> link[i] != 's' && link[i] != 'S' && link[i] != '\U{017F}'
    ensures !ContainsIgnoreCase(link, "sd")
  {
    ContainsPairIgnoreCase(link, 's', 'd');
    forall i | 0 <= i < |link| ensures !CharEqualsIgnoreCase(link[i], 's') {
      FoldS(link[i]);
    }
  }

  /** "1080p" is matched case-sensitively: "1080P" carries no quality marker. */
  lemma UpperCaseResolutionIsStandard()
    ensures DetermineQuality("1080P") == StandardQuality
  {
    var link := "1080P";
    assert !Contains(link, "1080p") by {
      assert link[4] != "1080p"[4];
    }
    NoUhdMarker(link);
    NoSdMarker(link);
    assert !Contains(link, "720p") by {
      assert link[..4] != "720p" by { assert link[0] != '7'; }
      assert link[1..][..4] != "720p" by { assert link[1] != '7'; }
    }
  }

  /** "4k" is matched ignoring case and wins over "720p": a link holding both "4K" and "720p" is UHD. */
  lemma UhdWinsOverHd(link: string)
    requires Contains(link, "4K") && Contains(link, "720p")
    ensures DetermineQuality(link) == Uhd
  {
    var i :| OccursAt(link, "4K", i);
    assert link[i] == '4' && link[i + 1] == 'K';
    assert CharEqualsIgnoreCase(link[i + 0], "4k"[0]);
    assert CharEqualsIgnoreCase(link[i + 1], "4k"[1]);
    assert OccursIgnoreCaseAt(link, "4k", i);
  }

  // ---------------------------------------------------------------------------
  // Link extraction
  // ---------------------------------------------------------------------------

  /** Matched by the selector `"video, source"`. */
  predicate IsMediaElement(e: Element) {
    e.tag == "video" || e.tag == "source"
  }

  /** `element.attr("src")`: the attribute value, or "" when it is absent. */
  function SrcAttr(e: Element): (r: string)
    ensures r == "" <==> e.src == None || e.src == Some("")
    ensures r != "" ==> e.src == Some(r)
  {
    e.src.GetOr("")
  }

  /** A selected element whose `src` is non-empty yields a link. */
  predicate Yields(e: Element) {
    IsMediaElement(e) && SrcAttr(e) != ""
  }

  /** The `VideoLink` built for a media url. */
  function LinkFor(src: string): (l: VideoLink)
    ensures l.url == src && l.hosterName in HosterNames && l.quality in QualityLabels
  {
    VideoLink(DetermineHosterName(src), src, DetermineQuality(src))
  }

  /**
   * `document.select("video, source").mapNotNull { ... }`: one link per
   * selected element with a non-empty `src`, in document order.
   */
  function MediaLinks(elements: seq<Element>): (links: seq<VideoLink>)
    ensures |links| <= |elements|
    ensures forall k :: 0 <= k < |links| ==> links[k].url != "" && links[k] == LinkFor(links[k].url)
  {
    if elements == [] then []
    else
      var first := elements[0];
      (if Yields(first) then [LinkFor(SrcAttr(first))] else []) + MediaLinks(elements[1..])
  }

  /** `fetchLinks(url)`: an `IOException` while fetching gives no links. */
  function FetchLinks(url: string, fetch: string -> FetchOutcome): (links: seq<VideoLink>)
    ensures fetch(url).IOFailure? ==> links == []
    ensures fetch(url).Page? ==> links == MediaLinks(fetch(url).elements)
    ensures fetch(url).Page? ==> |links| <= |fetch(url).elements|
  {
    match fetch(url)
    case IOFailure => []
    case Page(elements) => MediaLinks(elements)
  }

  /**
   * `extractVideoLink(url)`: the page is fetched only when one of the nine
   * hoster shapes matches the whole url; otherwise the result is empty
   * whatever the fetcher would have returned.
   */
  function ExtractVideoLink(url: string, fetch: string -> FetchOutcome): (links: seq<VideoLink>)
    ensures !Supported(url) ==> links == []
    ensures Supported(url) ==> links == FetchLinks(url, fetch)
    ensures forall l :: l in links ==> l.url != "" && l.hosterName in HosterNames && l.quality in QualityLabels
  {
    SupportedInOrder(url);
    if Matches(DoodShape, url) then FetchLinks(url, fetch)
    else if Matches(StreamtapeShape, url) then FetchLinks(url, fetch)
    else if Matches(VoeShape, url) then FetchLinks(url, fetch)
    else if Matches(VinovoShape, url) then FetchLinks(url, fetch)
    else if Matches(FilemoonShape, url) then FetchLinks(url, fetch)
    else if Matches(MixdropShape, url) then FetchLinks(url, fetch)
    else if Matches(DroploadShape, url) then FetchLinks(url, fetch)
    else if Matches(SupervideoShape, url) then FetchLinks(url, fetch)
    else if Matches(SwiftloadShape, url) then FetchLinks(url, fetch)
    else []
  }

  /** Extraction distributes over concatenation of documents: order is kept and nothing is merged. */
  lemma {:induction false} MediaLinksConcat(a: seq<Element>, b: seq<Element>)
    ensures MediaLinks(a + b) == MediaLinks(a) + MediaLinks(b)
  {
    if a == [] {
      assert a + b == b;
    } else {
      assert (a + b)[0] == a[0];
      assert (a + b)[1..] == a[1..] + b;
      MediaLinksConcat(a[1..], b);
    }
  }

  /** A single element yields its link exactly when it is a media element with a non-empty `src`. */
  lemma MediaLinksSingle(e: Element)
    ensures MediaLinks([e]) == if Yields(e) then [LinkFor(SrcAttr(e))] else []
  {
    assert [e][1..] == [];
  }

  /** The links are exactly the links of the yielding elements. */
  lemma {:induction false} MediaLinksMembership(elements: seq<Element>, l: VideoLink)
    ensures l in MediaLinks(elements) <==>
      exists i :: 0 <= i < |elements| && Yields(elements[i]) && l == LinkFor(SrcAttr(elements[i]))
  {
    if elements != [] {
      MediaLinksMembership(elements[1..], l);
      if exists i :: 0 <= i < |elements| && Yields(elements[i]) && l == LinkFor(SrcAttr(elements[i])) {
        var i :| 0 <= i < |elements| && Yields(elements[i]) && l == LinkFor(SrcAttr(elements[i]));
        if i > 0 {
          assert elements[1..][i - 1] == elements[i];
        }
      }
      if exists i :: 0 <= i < |elements[1..]| && Yields(elements[1..][i]) && l == LinkFor(SrcAttr(elements[1..][i])) {
        var i :| 0 <= i < |elements[1..]| && Yields(elements[1..][i]) && l == LinkFor(SrcAttr(elements[1..][i]));
        assert elements[i + 1] == elements[1..][i];
      }
    }
  }

  /**
   * An element whose `src` is missing or empty yields no link, wherever it
   * stands in the document: removing it leaves the links unchanged.
   */
  lemma EmptySrcAnywhere(a: seq<Element>, e: Element, b: seq<Element>)
    requires SrcAttr(e) == ""
    ensures MediaLinks(a + [e] + b) == MediaLinks(a + b)
  {
    MediaLinksConcat(a + [e], b);
    MediaLinksConcat(a, [e]);
    MediaLinksSingle(e);
    MediaLinksConcat(a, b);
  }

  /**
   * A page whose only media elements are a `video` with a non-empty `src`
   * and a `source` with an empty `src` resolves to exactly one link, for the
   * `video`; the empty `src` is skipped.
   */
  lemma EmptySrcSkipped(url: string, src: string, fetch: string -> FetchOutcome)
    requires Supported(url) && src != ""
    requires fetch(url) == Page([Element("video", Some(src)), Element("source", Some(""))])
    ensures ExtractVideoLink(url, fetch) == [LinkFor(src)]
  {
    var elements := [Element("video", Some(src)), Element("source", Some(""))];
    MediaLinksConcat([elements[0]], [elements[1]]);
    assert elements == [elements[0]] + [elements[1]];
    MediaLinksSingle(elements[0]);
    MediaLinksSingle(elements[1]);
  }

  lemma TapeblockerEmbedSupported()
    ensures Supported("https://tapeblocker/e/x")
  {
    var url := "https://tapeblocker/e/x";
    assert IsId("x");
    assert url == ShapeUrl(StreamtapeShape, "tapeblocker", "x");
    assert "tapeblocker" in StreamtapeShape.domains;
    MatchesIffSpells(StreamtapeShape, url);
    SupportedInOrder(url);
  }

  /**
   * The two hoster classifications are independent: a media url on the
   * Streamtape mirror `tapeblocker` is labelled "Unbekannt", because
   * `determineHosterName` looks only for "streamtape.", although an embed
   * page on that mirror is accepted by the url shapes.
   */
  lemma MirrorLabelledUnknown()
    ensures Supported("https://tapeblocker/e/x")
    ensures DetermineHosterName("https://tapeblocker/e/x") == UnknownHoster
  {
    TapeblockerEmbedSupported();
    TapeblockerLetters();
    UnknownWithoutNeedleLetters("https://tapeblocker/e/x");
  }

  lemma TapeblockerLetters()
    ensures var url := "https://tapeblocker/e/x";
            'd' !in url && 'm' !in url && 'v' !in url && 'f' !in url && 'u' !in url && 'w' !in url
  {
  }

  /** Every needle of `determineHosterName` has one of the letters d, m, v, f, u, w. */
  lemma UnknownWithoutNeedleLetters(url: string)
    requires 'd' !in url && 'm' !in url && 'v' !in url && 'f' !in url && 'u' !in url && 'w' !in url
    ensures DetermineHosterName(url) == UnknownHoster
  {
    AbsentCharNoMatch(url, "dood.", 0);
    AbsentCharNoMatch(url, "streamtape.", 5);
    AbsentCharNoMatch(url, "voe.", 0);
    AbsentCharNoMatch(url, "vinovo.", 0);
    AbsentCharNoMatch(url, "filemoon.", 0);
    AbsentCharNoMatch(url, "mixdrop.", 0);
    AbsentCharNoMatch(url, "dropload.", 0);
    AbsentCharNoMatch(url, "supervideo.", 1);
    AbsentCharNoMatch(url, "swiftload.", 1);
  }

  /** A hoster url with an empty id is never fetched: it gives no links. */
  lemma EmptyIdGivesNoLinks(i: int, d: string, fetch: string -> FetchOutcome)
    requires 0 <= i < |HosterShapes|
    ensures ExtractVideoLink(ShapeUrl(HosterShapes[i], d, ""), fetch) == []
  {
    EmptyIdRejected(i, d);
  }
}
