/**
 * The nine hoster embed-URL shapes that `extractVideoLink` recognises
 * (SuperStreamMovie2k.kt:143-156). Each shape is a regex matched against the
 * WHOLE url: `https://`, one of a fixed set of domains, a path opening, a
 * non-empty `[a-zA-Z0-9]+` id and a path closing. The regexes are written
 * out here as predicates over strings.
 */
module Hosters {

  /**
   * `https://<domain><pathStart><id><pathEnd>` for any listed domain and any
   * non-empty alphanumeric id.
   */
  datatype UrlShape = UrlShape(domains: seq<string>, pathStart: string, pathEnd: string)

  const Scheme: string := "https://"

  // https://dood\.(re|li|to)/d/([a-zA-Z0-9]+)
  const DoodShape: UrlShape := UrlShape(["dood.re", "dood.li", "dood.to"], "/d/", "")
  // https://(streamtape\.(net|to|xyz|site|online)|strcloud\.link|shavetape\.cash|strtapeadblock\.me|scloud\.online|tapeblocker)/e/([a-zA-Z0-9]+)
  const StreamtapeShape: UrlShape := UrlShape(
    ["streamtape.net", "streamtape.to", "streamtape.xyz", "streamtape.site", "streamtape.online",
     "strcloud.link", "shavetape.cash", "strtapeadblock.me", "scloud.online", "tapeblocker"],
    "/e/", "")
  // https://voe\.sx/e/([a-zA-Z0-9]+)
  const VoeShape: UrlShape := UrlShape(["voe.sx"], "/e/", "")
  // https://vinovo\.to/e/([a-zA-Z0-9]+)
  const VinovoShape: UrlShape := UrlShape(["vinovo.to"], "/e/", "")
  // https://filemoon\.(sx|to)/e/([a-zA-Z0-9]+)
  const FilemoonShape: UrlShape := UrlShape(["filemoon.sx", "filemoon.to"], "/e/", "")
  // https://mixdrop\.(co|to|ag)/e/([a-zA-Z0-9]+)
  const MixdropShape: UrlShape := UrlShape(["mixdrop.co", "mixdrop.to", "mixdrop.ag"], "/e/", "")
  // https://dropload\.(io|to)/e/([a-zA-Z0-9]+)
  const DroploadShape: UrlShape := UrlShape(["dropload.io", "dropload.to"], "/e/", "")
  // https://supervideo\.cc/embed-([a-zA-Z0-9]+)\.html
  const SupervideoShape: UrlShape := UrlShape(["supervideo.cc"], "/embed-", ".html")
  // https://swiftload\.io/e/([a-zA-Z0-9]+)
  const SwiftloadShape: UrlShape := UrlShape(["swiftload.io"], "/e/", "")

  /** The shapes in the order `extractVideoLink` tries them. */
  const HosterShapes: seq<UrlShape> :=
    [DoodShape, StreamtapeShape, VoeShape, VinovoShape, FilemoonShape,
     MixdropShape, DroploadShape, SupervideoShape, SwiftloadShape]

  /** The regex class `[a-zA-Z0-9]`. */
  predicate IsAlnum(c: char) {
    'a' <= c <= 'z' || 'A' <= c <= 'Z' || '0' <= c <= '9'
  }

  /** The regex group `([a-zA-Z0-9]+)`. */
  predicate IsId(s: string) {
    |s| > 0 && forall k :: 0 <= k < |s| ==> IsAlnum(s[k])
  }

  /** The url a shape spells with a given domain and id. */
  function ShapeUrl(shape: UrlShape, domain: string, id: string): string {
    Scheme + domain + shape.pathStart + id + shape.pathEnd
  }

  /** Reference reading of a shape's regex: `url` is one of the strings it spells. */
  ghost predicate Spells(shape: UrlShape, url: string) {
    exists d, id :: d in shape.domains && IsId(id) && url == ShapeUrl(shape, d, id)
  }

  /** Whole-string match of `prefix [a-zA-Z0-9]+ suffix`. */
  predicate MatchesAround(url: string, prefix: string, suffix: string) {
    |prefix| + |suffix| < |url| && url[..|prefix|] == prefix && url[|url| - |suffix|..] == suffix
    && IsId(url[|prefix|..|url| - |suffix|])
  }

  lemma MatchesAroundIff(url: string, prefix: string, suffix: string)
    ensures MatchesAround(url, prefix, suffix) <==> exists id :: IsId(id) && url == prefix + id + suffix
  {
    if MatchesAround(url, prefix, suffix) {
      var id := url[|prefix|..|url| - |suffix|];
      assert url == prefix + id + suffix;
    }
    if exists id :: IsId(id) && url == prefix + id + suffix {
      var id :| IsId(id) && url == prefix + id + suffix;
      assert url[..|prefix|] == prefix;
      assert url[|url| - |suffix|..] == suffix;
      assert url[|prefix|..|url| - |suffix|] == id;
    }
  }

  /** The url matches the regex alternative for one of `domains`. */
  predicate MatchesDomain(url: string, domains: seq<string>, pathStart: string, pathEnd: string)
    decreases |domains|
  {
    |domains| > 0 &&
    (MatchesAround(url, Scheme + domains[0] + pathStart, pathEnd) || MatchesDomain(url, domains[1..], pathStart, pathEnd))
  }

  lemma {:induction false} MatchesDomainIff(url: string, domains: seq<string>, pathStart: string, pathEnd: string)
    ensures MatchesDomain(url, domains, pathStart, pathEnd) <==>
      exists d, id :: d in domains && IsId(id) && url == ShapeUrl(UrlShape(domains, pathStart, pathEnd), d, id)
    decreases |domains|
  {
    if |domains| > 0 {
      var here := MatchesAround(url, Scheme + domains[0] + pathStart, pathEnd);
      MatchesAroundIff(url, Scheme + domains[0] + pathStart, pathEnd);
      MatchesDomainIff(url, domains[1..], pathStart, pathEnd);
      forall d, id ensures ShapeUrl(UrlShape(domains, pathStart, pathEnd), d, id) == Scheme + d + pathStart + id + pathEnd
                         && ShapeUrl(UrlShape(domains[1..], pathStart, pathEnd), d, id) == Scheme + d + pathStart + id + pathEnd {
      }
      if here {
        var id :| IsId(id) && url == Scheme + domains[0] + pathStart + id + pathEnd;
        assert url == ShapeUrl(UrlShape(domains, pathStart, pathEnd), domains[0], id);
      }
      if exists d, id :: d in domains && IsId(id) && url == ShapeUrl(UrlShape(domains, pathStart, pathEnd), d, id) {
        var d, id :| d in domains && IsId(id) && url == ShapeUrl(UrlShape(domains, pathStart, pathEnd), d, id);
        if d != domains[0] {
          assert d in domains[1..];
          assert url == ShapeUrl(UrlShape(domains[1..], pathStart, pathEnd), d, id);
        } else {
          assert url == Scheme + domains[0] + pathStart + id + pathEnd;
        }
      }
    }
  }

  /** Kotlin's `url.matches(Regex(...))` for the shape's regex. */
  predicate Matches(shape: UrlShape, url: string) {
    MatchesDomain(url, shape.domains, shape.pathStart, shape.pathEnd)
  }

  /** The string test agrees with the regex reading of the shape. */
  lemma MatchesIffSpells(shape: UrlShape, url: string)
    ensures Matches(shape, url) <==> Spells(shape, url)
  {
    MatchesDomainIff(url, shape.domains, shape.pathStart, shape.pathEnd);
    assert shape == UrlShape(shape.domains, shape.pathStart, shape.pathEnd);
  }

  /** Some shape accepts the url, so `extractVideoLink` goes on to fetch it. */
  predicate Supported(url: string) {
    exists i :: 0 <= i < |HosterShapes| && Matches(HosterShapes[i], url)
  }

  /** The `when` conditions of `extractVideoLink`, tried in order. */
  predicate MatchesInOrder(url: string) {
    Matches(DoodShape, url) || Matches(StreamtapeShape, url) || Matches(VoeShape, url)
    || Matches(VinovoShape, url) || Matches(FilemoonShape, url) || Matches(MixdropShape, url)
    || Matches(DroploadShape, url) || Matches(SupervideoShape, url) || Matches(SwiftloadShape, url)
  }

  /** Some shape of `shapes` matches, trying them from the front. */
  predicate AnyMatches(shapes: seq<UrlShape>, url: string)
    decreases |shapes|
  {
    |shapes| > 0 && (Matches(shapes[0], url) || AnyMatches(shapes[1..], url))
  }

  lemma {:induction false} AnyMatchesIff(shapes: seq<UrlShape>, url: string)
    ensures AnyMatches(shapes, url) <==> exists i :: 0 <= i < |shapes| && Matches(shapes[i], url)
    decreases |shapes|
  {
    if |shapes| > 0 {
      AnyMatchesIff(shapes[1..], url);
      if exists i :: 0 <= i < |shapes| && Matches(shapes[i], url) {
        var i :| 0 <= i < |shapes| && Matches(shapes[i], url);
        if i > 0 {
          assert shapes[1..][i - 1] == shapes[i];
        }
      }
      if exists i :: 0 <= i < |shapes[1..]| && Matches(shapes[1..][i], url) {
        var i :| 0 <= i < |shapes[1..]| && Matches(shapes[1..][i], url);
        assert shapes[i + 1] == shapes[1..][i];
      }
    }
  }

  /** The `when` chain accepts exactly the supported urls. */
  lemma SupportedInOrder(url: string)
    ensures Supported(url) <==> MatchesInOrder(url)
  {
    var ss := HosterShapes;
    assert ss[8..][1..] == [];
    assert AnyMatches(ss[8..], url) == Matches(SwiftloadShape, url);
    assert ss[7..][1..] == ss[8..];
    assert AnyMatches(ss[7..], url) == (Matches(SupervideoShape, url) || AnyMatches(ss[8..], url));
    assert ss[6..][1..] == ss[7..];
    assert AnyMatches(ss[6..], url) == (Matches(DroploadShape, url) || AnyMatches(ss[7..], url));
    assert ss[5..][1..] == ss[6..];
    assert AnyMatches(ss[5..], url) == (Matches(MixdropShape, url) || AnyMatches(ss[6..], url));
    assert ss[4..][1..] == ss[5..];
    assert AnyMatches(ss[4..], url) == (Matches(FilemoonShape, url) || AnyMatches(ss[5..], url));
    assert ss[3..][1..] == ss[4..];
    assert AnyMatches(ss[3..], url) == (Matches(VinovoShape, url) || AnyMatches(ss[4..], url));
    assert ss[2..][1..] == ss[3..];
    assert AnyMatches(ss[2..], url) == (Matches(VoeShape, url) || AnyMatches(ss[3..], url));
    assert ss[1..][1..] == ss[2..];
    assert AnyMatches(ss[1..], url) == (Matches(StreamtapeShape, url) || AnyMatches(ss[2..], url));
    assert AnyMatches(ss, url) == (Matches(DoodShape, url) || AnyMatches(ss[1..], url));
    AnyMatchesIff(ss, url);
  }

  /** Every url a shape spells is supported: the regexes accept all their spellings. */
  lemma SpelledIsSupported(i: int, d: string, id: string)
    requires 0 <= i < |HosterShapes| && d in HosterShapes[i].domains && IsId(id)
    ensures Supported(ShapeUrl(HosterShapes[i], d, id))
  {
    MatchesIffSpells(HosterShapes[i], ShapeUrl(HosterShapes[i], d, id));
  }

  // ---------------------------------------------------------------------------
  // What every supported url looks like
  // ---------------------------------------------------------------------------

  /** Neither a query nor a fragment delimiter occurs in `s`. */
  predicate DelimiterFree(s: string) {
    '?' !in s && '#' !in s
  }

  /** No literal part of the shape contains a delimiter. */
  predicate ShapeDelimiterFree(shape: UrlShape) {
    DelimiterFree(shape.pathStart) && DelimiterFree(shape.pathEnd) && forall d :: d in shape.domains ==> DelimiterFree(d)
  }

  // One small lemma per shape keeps each check on string literals cheap for the solver.
  lemma DoodDelimiterFree() ensures ShapeDelimiterFree(DoodShape) {
    forall d | d in DoodShape.domains ensures DelimiterFree(d) {}
  }
  lemma StreamtapeDelimiterFree() ensures ShapeDelimiterFree(StreamtapeShape) {
    var ds := StreamtapeShape.domains;
    assert ds == ds[..5] + ds[5..];
    StreamtapeNamesDelimiterFree(ds[..5]);
    StreamtapeMirrorsDelimiterFree(ds[5..]);
  }
  lemma StreamtapeNamesDelimiterFree(ds: seq<string>)
    requires ds == ["streamtape.net", "streamtape.to", "streamtape.xyz", "streamtape.site", "streamtape.online"]
    ensures forall d :: d in ds ==> DelimiterFree(d)
  {
  }
  lemma StreamtapeMirrorsDelimiterFree(ds: seq<string>)
    requires ds == ["strcloud.link", "shavetape.cash", "strtapeadblock.me", "scloud.online", "tapeblocker"]
    ensures forall d :: d in ds ==> DelimiterFree(d)
  {
  }
  lemma VoeDelimiterFree() ensures ShapeDelimiterFree(VoeShape) {
    forall d | d in VoeShape.domains ensures DelimiterFree(d) {}
  }
  lemma VinovoDelimiterFree() ensures ShapeDelimiterFree(VinovoShape) {
    forall d | d in VinovoShape.domains ensures DelimiterFree(d) {}
  }
  lemma FilemoonDelimiterFree() ensures ShapeDelimiterFree(FilemoonShape) {
    forall d | d in FilemoonShape.domains ensures DelimiterFree(d) {}
  }
  lemma MixdropDelimiterFree() ensures ShapeDelimiterFree(MixdropShape) {
    forall d | d in MixdropShape.domains ensures DelimiterFree(d) {}
  }
  lemma DroploadDelimiterFree() ensures ShapeDelimiterFree(DroploadShape) {
    forall d | d in DroploadShape.domains ensures DelimiterFree(d) {}
  }
  lemma SupervideoDelimiterFree() ensures ShapeDelimiterFree(SupervideoShape) {
    forall d | d in SupervideoShape.domains ensures DelimiterFree(d) {}
  }
  lemma SwiftloadDelimiterFree() ensures ShapeDelimiterFree(SwiftloadShape) {
    forall d | d in SwiftloadShape.domains ensures DelimiterFree(d) {}
  }

  lemma ShapesDelimiterFree()
    ensures DelimiterFree(Scheme)
    ensures forall i :: 0 <= i < |HosterShapes| ==> ShapeDelimiterFree(HosterShapes[i])
  {
    DoodDelimiterFree(); StreamtapeDelimiterFree(); VoeDelimiterFree(); VinovoDelimiterFree(); FilemoonDelimiterFree(); MixdropDelimiterFree(); DroploadDelimiterFree(); SupervideoDelimiterFree(); SwiftloadDelimiterFree();
  }

  lemma IdDelimiterFree(id: string)
    requires IsId(id)
    ensures DelimiterFree(id)
  {
    forall k | 0 <= k < |id| ensures id[k] != '?' && id[k] != '#' {
      assert IsAlnum(id[k]);
    }
  }

  /** Every url a delimiter-free shape spells is delimiter-free. */
  lemma SpelledUrlDelimiterFree(shape: UrlShape, d: string, id: string)
    requires ShapeDelimiterFree(shape) && d in shape.domains && IsId(id) && DelimiterFree(Scheme)
    ensures DelimiterFree(ShapeUrl(shape, d, id))
    ensures |ShapeUrl(shape, d, id)| > |Scheme| && ShapeUrl(shape, d, id)[..|Scheme|] == Scheme
  {
    IdDelimiterFree(id);
    assert DelimiterFree(d);
    var url := ShapeUrl(shape, d, id);
    assert url == Scheme + (d + shape.pathStart + id + shape.pathEnd);
  }

  /** `url` is spelled by one of `shapes`, none of which contains a delimiter. */
  lemma SpelledByDelimiterFreeShapes(shapes: seq<UrlShape>, url: string)
    requires DelimiterFree(Scheme)
    requires forall i :: 0 <= i < |shapes| ==> ShapeDelimiterFree(shapes[i])
    requires exists i :: 0 <= i < |shapes| && Matches(shapes[i], url)
    ensures |url| > |Scheme| && url[..|Scheme|] == Scheme
    ensures DelimiterFree(url)
  {
    var i :| 0 <= i < |shapes| && Matches(shapes[i], url);
    var shape := shapes[i];
    MatchesIffSpells(shape, url);
    var d, id :| d in shape.domains && IsId(id) && url == ShapeUrl(shape, d, id);
    SpelledUrlDelimiterFree(shape, d, id);
  }

  /**
   * A supported url starts with `https://` and has neither a query string nor
   * a fragment: the regexes match the whole string, so a trailing `?...` or
   * `#...` is rejected.
   */
  lemma SupportedUrlForm(url: string)
    requires Supported(url)
    ensures |url| > |Scheme| && url[..|Scheme|] == Scheme
    ensures DelimiterFree(url)
  {
    ShapesDelimiterFree();
    SpelledByDelimiterFreeShapes(HosterShapes, url);
  }

  /**
   * How a shape ends: either the path opening ends in `/` and nothing
   * follows the id, or it ends in `-` and `.html` follows the id.
   */
  predicate Ending(shape: UrlShape) {
    |shape.pathStart| > 0
    && ((shape.pathEnd == "" && shape.pathStart[|shape.pathStart| - 1] == '/')
        || (shape.pathEnd == ".html" && shape.pathStart[|shape.pathStart| - 1] == '-'))
  }

  lemma ShapesEnding()
    ensures forall j :: 0 <= j < |HosterShapes| ==> Ending(HosterShapes[j])
  {
    forall j | 0 <= j < |HosterShapes| ensures Ending(HosterShapes[j]) {
      assert HosterShapes[j].pathStart in {"/d/", "/e/", "/embed-"};
    }
  }

  /** The last `n` characters of `v` are id characters, and a `/` comes right before them. */
  predicate SlashThenId(v: string, n: nat) {
    1 <= n < |v| && v[|v| - n - 1] == '/' && forall k :: |v| - n <= k < |v| ==> IsAlnum(v[k])
  }

  /** What the end of a spelled url looks like. */
  lemma SpelledEnd(shape: UrlShape, d: string, id: string)
    requires Ending(shape) && IsId(id)
    ensures var v := ShapeUrl(shape, d, id);
            (shape.pathEnd == "" ==> SlashThenId(v, |id|))
            && (shape.pathEnd == ".html" ==> |v| >= 6 && v[|v| - 1] == 'l' && IsAlnum(v[|v| - 6]))
  {
    var v := ShapeUrl(shape, d, id);
    var front := Scheme + d + shape.pathStart;
    assert v == front + id + shape.pathEnd;
    if shape.pathEnd == "" {
      assert v == front + id;
      forall k | |v| - |id| <= k < |v| ensures IsAlnum(v[k]) {
        assert v[k] == id[k - |front|];
      }
    }
  }

  /**
   * A url ending in a `/` and an id does not end in a `/`-free tail that
   * holds a non-id character.
   */
  lemma SlashIdRejectsTail(v: string, n: nat, tail: string, m: int)
    requires SlashThenId(v, n) && '/' !in tail && 0 <= m < |tail| && !IsAlnum(tail[m])
    ensures |tail| > |v| || v[|v| - |tail|..] != tail
  {
    if |tail| <= |v| {
      var start := |v| - |tail|;
      var slash := |v| - n - 1;
      if slash >= start {
        assert v[start..][slash - start] == '/';
      } else {
        assert v[start..][m] == v[start + m];
        assert IsAlnum(v[start + m]);
      }
    }
  }

  /** A url spelled by `shape` with an empty id is not spelled by `other` with any id. */
  lemma EmptyIdUnspelled(shape: UrlShape, other: UrlShape, d: string, d': string, id: string)
    requires Ending(shape) && Ending(other) && IsId(id)
    ensures ShapeUrl(shape, d, "") != ShapeUrl(other, d', id)
  {
    var u := ShapeUrl(shape, d, "");
    var v := ShapeUrl(other, d', id);
    assert u == (Scheme + d + shape.pathStart) + shape.pathEnd;
    SpelledEnd(other, d', id);
    if shape.pathEnd == "" {
      assert u[|u| - 1] == '/';
      if other.pathEnd == "" {
        assert IsAlnum(v[|v| - 1]);
      }
    } else {
      assert u[|u| - 6] == '-';
      assert u[|u| - 5..] == ".html";
      if other.pathEnd == "" {
        SlashIdRejectsTail(v, |id|, ".html", 0);
      }
    }
  }

  lemma EmptyIdUnmatched(shape: UrlShape, other: UrlShape, d: string)
    requires Ending(shape) && Ending(other)
    ensures !Matches(other, ShapeUrl(shape, d, ""))
  {
    MatchesIffSpells(other, ShapeUrl(shape, d, ""));
    forall d', id | d' in other.domains && IsId(id) ensures ShapeUrl(shape, d, "") != ShapeUrl(other, d', id) {
      EmptyIdUnspelled(shape, other, d, d', id);
    }
  }

  /**
   * The id is required: a url with an empty id is accepted by none of the
   * nine shapes, whatever its domain.
   */
  lemma EmptyIdRejected(i: int, d: string)
    requires 0 <= i < |HosterShapes|
    ensures !Supported(ShapeUrl(HosterShapes[i], d, ""))
  {
    ShapesEnding();
    forall j | 0 <= j < |HosterShapes| ensures !Matches(HosterShapes[j], ShapeUrl(HosterShapes[i], d, "")) {
      EmptyIdUnmatched(HosterShapes[i], HosterShapes[j], d);
    }
  }
}
