/**
 * The catalog side of the provider (SuperStreamMovie2k.kt:37-114): the query
 * url sent to the browse API, the mapping of catalog records to search
 * results, the fail-soft search, and the rule that decides whether the main
 * page has a next page.
 */
module Catalog {
  import opened Wrappers
  import opened Text

  /** Kotlin's `Int`. */
  newtype Int32 = x: int | -0x8000_0000 <= x < 0x8000_0000

  const BaseApiUrl: string := "https://api.movie2k.ch/data/browse/"

  /** `SubtitleData(lang, url)`. */
  datatype SubtitleData = SubtitleData(lang: string, url: string)

  /** `MovieData`, one catalog record as the API returns it; nullable fields are options. */
  datatype MovieData = MovieData(
    id: string,
    title: string,
    poster: Option<string>,
    year: Option<Int32>,
    genre: Option<string>,
    trailer: Option<string>,
    subtitles: Option<seq<SubtitleData>>)

  /** `DataJSON`, the API's response body. */
  datatype DataJSON = DataJSON(list: seq<MovieData>)

  /** The host's search result, reduced to plain data. */
  datatype SearchResult = SearchResult(
    title: string,
    url: string,
    posterUrl: Option<string>,
    year: Option<Int32>,
    genres: seq<string>)

  // ---------------------------------------------------------------------------
  // The query url
  // ---------------------------------------------------------------------------

  /** One `key=value` parameter, the value inserted verbatim. */
  function Param(key: string, value: string): string {
    key + "=" + value
  }

  /**
   * `queryApi`'s url: the base url, then the eight parameters in a fixed
   * order with the values inserted verbatim (no encoding). Parameters keep
   * the source's default values.
   */
  function QueryUrl(genre: string := "", orderBy: string := "trending", page: Int32 := 1, limit: Int32 := 20,
                    keyword: string := "", year: string := "", rating: string := "", language: string := "2"): string
  {
    BaseApiUrl + "?" + Param("lang", language) + "&" + Param("genre", genre) + "&" + Param("order_by", orderBy)
    + "&" + Param("page", IntToDecimal(page as int)) + "&" + Param("limit", IntToDecimal(limit as int))
    + "&" + Param("year", year) + "&" + Param("rating", rating) + "&" + Param("keyword", keyword)
  }

  /** A `key=value` pair split at its first '='; a pair without '=' has an empty value. */
  function SplitParameter(p: string): (string, string) {
    var i := IndexOf(p, '=');
    if i == |p| then (p, "") else (p[..i], p[i + 1..])
  }

  /**
   * How a server reads the url back: the text after the first '?', cut at
   * every '&', each piece split at its first '='.
   */
  function QueryParameters(url: string): Option<seq<(string, string)>> {
    var q := IndexOf(url, '?');
    if q == |url| then None
    else
      var pieces := Split(url[q + 1..], '&');
      Some(seq(|pieces|, k requires 0 <= k < |pieces| => SplitParameter(pieces[k])))
  }

  /** The eight parameters of the query as (key, value) pairs, in the order of the template. */
  function QueryPairs(genre: string, orderBy: string, page: Int32, limit: Int32,
                      keyword: string, year: string, rating: string, language: string): seq<(string, string)>
  {
    [("lang", language), ("genre", genre), ("order_by", orderBy),
     ("page", IntToDecimal(page as int)), ("limit", IntToDecimal(limit as int)),
     ("year", year), ("rating", rating), ("keyword", keyword)]
  }

  function Pieces(pairs: seq<(string, string)>): (ps: seq<string>)
    ensures |ps| == |pairs|
  {
    seq(|pairs|, k requires 0 <= k < |pairs| => Param(pairs[k].0, pairs[k].1))
  }

  /** One step of `Join` behind a fixed prefix. */
  lemma JoinStep(pre: string, a: seq<string>, sep: char)
    requires |a| >= 2
    ensures pre + Join(a, sep) == pre + a[0] + [sep] + Join(a[1..], sep)
  {
    assert Join(a, sep) == a[0] + [sep] + Join(a[1..], sep);
  }

  /** Joining eight pieces behind a prefix, written out from left to right. */
  lemma JoinEight(pre: string, a: seq<string>, sep: char)
    requires |a| == 8
    ensures pre + Join(a, sep) == pre + a[0] + [sep] + a[1] + [sep] + a[2] + [sep] + a[3] + [sep] + a[4]
                                  + [sep] + a[5] + [sep] + a[6] + [sep] + a[7]
  {
    var p1 := pre + a[0] + [sep];
    JoinStep(pre, a, sep);
    var p2 := p1 + a[1] + [sep];
    JoinStep(p1, a[1..], sep);
    assert a[1..][1..] == a[2..];
    var p3 := p2 + a[2] + [sep];
    JoinStep(p2, a[2..], sep);
    assert a[2..][1..] == a[3..];
    var p4 := p3 + a[3] + [sep];
    JoinStep(p3, a[3..], sep);
    assert a[3..][1..] == a[4..];
    var p5 := p4 + a[4] + [sep];
    JoinStep(p4, a[4..], sep);
    assert a[4..][1..] == a[5..];
    var p6 := p5 + a[5] + [sep];
    JoinStep(p5, a[5..], sep);
    assert a[5..][1..] == a[6..];
    var p7 := p6 + a[6] + [sep];
    JoinStep(p6, a[6..], sep);
    assert a[6..][1..] == a[7..];
    assert Join(a[7..], sep) == a[7];
  }

  lemma QueryUrlIsJoin(genre: string, orderBy: string, page: Int32, limit: Int32,
                       keyword: string, year: string, rating: string, language: string)
    ensures QueryUrl(genre, orderBy, page, limit, keyword, year, rating, language)
         == BaseApiUrl + "?" + Join(Pieces(QueryPairs(genre, orderBy, page, limit, keyword, year, rating, language)), '&')
  {
    var ps := Pieces(QueryPairs(genre, orderBy, page, limit, keyword, year, rating, language));
    JoinEight(BaseApiUrl + "?", ps, '&');
  }

  lemma SplitParameterOf(key: string, value: string)
    requires '=' !in key
    ensures SplitParameter(Param(key, value)) == (key, value)
  {
    var p := Param(key, value);
    assert p == key + ['='] + value;
    IndexOfAfterPiece(key, '=', value);
    assert p[..|key|] == key;
    assert p[|key| + 1..] == value;
  }

  lemma ParamWithoutSeparator(key: string, value: string, sep: char)
    requires sep != '=' && sep !in key && sep !in value
    ensures sep !in Param(key, value)
  {
  }

  /** A pair is written so that it reads back unchanged. */
  predicate Plain(pair: (string, string)) {
    '&' !in pair.0 && '=' !in pair.0 && '&' !in pair.1
  }

  /**
   * Reading back `pre?k1=v1&k2=v2&...` gives the pairs, when `pre` has no
   * '?' and no key or value holds a separator that would cut it.
   */
  lemma ParametersOfQuery(pre: string, pairs: seq<(string, string)>)
    requires |pairs| >= 1 && '?' !in pre
    requires forall k :: 0 <= k < |pairs| ==> Plain(pairs[k])
    ensures QueryParameters(pre + "?" + Join(Pieces(pairs), '&')) == Some(pairs)
  {
    var ps := Pieces(pairs);
    var rest := Join(ps, '&');
    var url := pre + "?" + rest;
    assert url == pre + ['?'] + rest;
    IndexOfAfterPiece(pre, '?', rest);
    assert url[|pre| + 1..] == rest;
    forall k | 0 <= k < |ps| ensures '&' !in ps[k] {
      ParamWithoutSeparator(pairs[k].0, pairs[k].1, '&');
    }
    SplitJoin(ps, '&');
    assert IndexOf(url, '?') == |pre|;
    assert Split(url[|pre| + 1..], '&') == ps;
    var read := seq(|ps|, k requires 0 <= k < |ps| => SplitParameter(ps[k]));
    assert QueryParameters(url) == Some(read);
    forall k | 0 <= k < |ps| ensures read[k] == pairs[k] {
      SplitParameterOf(pairs[k].0, pairs[k].1);
    }
    assert read == pairs;
  }

  lemma DecimalHasNoSeparator(n: int, sep: char)
    requires sep != '-' && !IsDigit(sep)
    ensures sep !in IntToDecimal(n)
  {
  }

  /**
   * When no value contains '&', reading the url back gives the eight
   * parameters in order, each with its value unchanged.
   */
  lemma QueryUrlParameters(genre: string, orderBy: string, page: Int32, limit: Int32,
                           keyword: string, year: string, rating: string, language: string)
    requires '&' !in genre && '&' !in orderBy && '&' !in keyword
    requires '&' !in year && '&' !in rating && '&' !in language
    ensures QueryParameters(QueryUrl(genre, orderBy, page, limit, keyword, year, rating, language))
         == Some(QueryPairs(genre, orderBy, page, limit, keyword, year, rating, language))
  {
    var pairs := QueryPairs(genre, orderBy, page, limit, keyword, year, rating, language);
    QueryUrlIsJoin(genre, orderBy, page, limit, keyword, year, rating, language);
    DecimalHasNoSeparator(page as int, '&');
    DecimalHasNoSeparator(limit as int, '&');
    assert '?' !in BaseApiUrl;
    ParametersOfQuery(BaseApiUrl, pairs);
  }

  /** Occurrences of `c` over all values of `pairs`. */
  function ValueCount(pairs: seq<(string, string)>, c: char): nat {
    if pairs == [] then 0 else Count(pairs[0].1, c) + ValueCount(pairs[1..], c)
  }

  lemma {:induction false} ValueCountZero(pairs: seq<(string, string)>, c: char)
    ensures ValueCount(pairs, c) == 0 <==> forall k :: 0 <= k < |pairs| ==> c !in pairs[k].1
  {
    if pairs != [] {
      CountAbsent(pairs[0].1, c);
      ValueCountZero(pairs[1..], c);
      assert forall k :: 1 <= k < |pairs| ==> pairs[k] == pairs[1..][k - 1];
    }
  }

  lemma ParamCount(key: string, value: string, c: char)
    requires c != '=' && c !in key
    ensures Count(Param(key, value), c) == Count(value, c)
  {
    CountConcat(key + "=", value, c);
    CountConcat(key, "=", c);
    CountAbsent(key, c);
    CountAbsent("=", c);
  }

  lemma {:induction false} PiecesCount(pairs: seq<(string, string)>, c: char)
    requires c != '=' && forall k :: 0 <= k < |pairs| ==> c !in pairs[k].0
    ensures SumCount(Pieces(pairs), c) == ValueCount(pairs, c)
  {
    if pairs != [] {
      ParamCount(pairs[0].0, pairs[0].1, c);
      assert Pieces(pairs)[1..] == Pieces(pairs[1..]);
      PiecesCount(pairs[1..], c);
    }
  }

  /** Every '&' inside a value starts one more parameter when the url is read back. */
  lemma ParameterCountOfQuery(pre: string, pairs: seq<(string, string)>)
    requires |pairs| >= 1 && '?' !in pre
    requires forall k :: 0 <= k < |pairs| ==> '&' !in pairs[k].0
    ensures QueryParameters(pre + "?" + Join(Pieces(pairs), '&')).Some?
    ensures |QueryParameters(pre + "?" + Join(Pieces(pairs), '&')).value| == |pairs| + ValueCount(pairs, '&')
  {
    var ps := Pieces(pairs);
    var rest := Join(ps, '&');
    var url := pre + "?" + rest;
    assert url == pre + ['?'] + rest;
    IndexOfAfterPiece(pre, '?', rest);
    assert url[|pre| + 1..] == rest;
    SplitCount(rest, '&');
    JoinCount(ps, '&');
    PiecesCount(pairs, '&');
  }

  /**
   * The query url reads back as exactly its eight parameters if and only if
   * no value holds an '&'; otherwise the extra '&' split off further
   * parameters, since values are inserted unencoded.
   */
  lemma QueryUrlIntact(genre: string, orderBy: string, page: Int32, limit: Int32,
                       keyword: string, year: string, rating: string, language: string)
    ensures QueryParameters(QueryUrl(genre, orderBy, page, limit, keyword, year, rating, language)).Some?
    ensures |QueryParameters(QueryUrl(genre, orderBy, page, limit, keyword, year, rating, language)).value| == 8
        <==> ('&' !in genre && '&' !in orderBy && '&' !in keyword
              && '&' !in year && '&' !in rating && '&' !in language)
  {
    var pairs := QueryPairs(genre, orderBy, page, limit, keyword, year, rating, language);
    QueryUrlIsJoin(genre, orderBy, page, limit, keyword, year, rating, language);
    assert '?' !in BaseApiUrl;
    ParameterCountOfQuery(BaseApiUrl, pairs);
    ValueCountZero(pairs, '&');
    QueryValuesFree(genre, orderBy, page, limit, keyword, year, rating, language);
  }

  lemma QueryValuesFree(genre: string, orderBy: string, page: Int32, limit: Int32,
                        keyword: string, year: string, rating: string, language: string)
    ensures (forall k :: 0 <= k < 8 ==> '&' !in QueryPairs(genre, orderBy, page, limit, keyword, year, rating, language)[k].1)
        <==> ('&' !in genre && '&' !in orderBy && '&' !in keyword
              && '&' !in year && '&' !in rating && '&' !in language)
  {
    var pairs := QueryPairs(genre, orderBy, page, limit, keyword, year, rating, language);
    DecimalHasNoSeparator(page as int, '&');
    DecimalHasNoSeparator(limit as int, '&');
    assert pairs[0].1 == language && pairs[1].1 == genre && pairs[2].1 == orderBy;
    assert pairs[5].1 == year && pairs[6].1 == rating && pairs[7].1 == keyword;
  }

  // ---------------------------------------------------------------------------
  // Catalog records to search results
  // ---------------------------------------------------------------------------

  const WatchPrefix: string := "/watch/"

  /**
   * `MovieData.toSearchResponse`: the result links to the record's watch
   * page and keeps title, poster and year; a missing genre gives no genres,
   * a present one a one-element list.
   */
  function ToSearchResponse(m: MovieData): (r: SearchResult)
    ensures r.title == m.title && r.posterUrl == m.poster && r.year == m.year
    ensures |r.genres| <= 1
    ensures r.genres == [] <==> m.genre == None
  {
    SearchResult(m.title, WatchPrefix + m.id, m.poster, m.year,
                 match m.genre case None => [] case Some(g) => [g])
  }

  /** The record id behind a watch url, if it is one. */
  function WatchId(url: string): Option<string> {
    if |WatchPrefix| <= |url| && url[..|WatchPrefix|] == WatchPrefix then Some(url[|WatchPrefix|..]) else None
  }

  /** The genre behind a genre list of at most one entry. */
  function GenreOf(genres: seq<string>): Option<string> {
    if genres == [] then None else Some(genres[0])
  }

  /** The search result gives back the record's id and genre. */
  lemma SearchResponseRecovers(m: MovieData)
    ensures WatchId(ToSearchResponse(m).url) == Some(m.id)
    ensures GenreOf(ToSearchResponse(m).genres) == m.genre
  {
    var url := ToSearchResponse(m).url;
    assert url[..|WatchPrefix|] == WatchPrefix;
    assert url[|WatchPrefix|..] == m.id;
  }

  /** Two records give the same search result exactly when they differ at most in trailer and subtitles. */
  lemma SearchResponseForgetsOnlyExtras(m1: MovieData, m2: MovieData)
    ensures ToSearchResponse(m1) == ToSearchResponse(m2)
        <==> (m1.id == m2.id && m1.title == m2.title && m1.poster == m2.poster
              && m1.year == m2.year && m1.genre == m2.genre)
  {
    if ToSearchResponse(m1) == ToSearchResponse(m2) {
      SearchResponseRecovers(m1);
      SearchResponseRecovers(m2);
    }
  }

  /** `DataJSON.toSearchResponseList`: one result per record, in order. */
  function ToSearchResponseList(d: DataJSON): (r: seq<SearchResult>)
    decreases |d.list|
    ensures |r| == |d.list|
    ensures forall i :: 0 <= i < |r| ==> r[i] == ToSearchResponse(d.list[i])
  {
    if d.list == [] then [] else [ToSearchResponse(d.list[0])] + ToSearchResponseList(DataJSON(d.list[1..]))
  }

  // ---------------------------------------------------------------------------
  // Search and the next-page rule
  // ---------------------------------------------------------------------------

  /** What the request and the JSON parse give back: a parsed body, or an exception. */
  datatype ApiResponse = Parsed(data: DataJSON) | Failed

  /** The url `search` requests: the query as keyword, a limit of 20, other parameters at their defaults. */
  function SearchUrl(query: string): string {
    QueryUrl(keyword := query, limit := 20)
  }

  /**
   * `search`: any exception from the request or the parse gives an empty
   * list; otherwise the parsed records mapped to search results.
   */
  function Search(query: string, api: string -> ApiResponse): (r: seq<SearchResult>)
    ensures api(SearchUrl(query)).Failed? ==> r == []
    ensures api(SearchUrl(query)).Parsed? ==> |r| == |api(SearchUrl(query)).data.list|
    ensures forall i :: 0 <= i < |r| ==> r[i] == ToSearchResponse(api(SearchUrl(query)).data.list[i])
  {
    match api(SearchUrl(query))
    case Failed => []
    case Parsed(d) => ToSearchResponseList(d)
  }

  /** A search text without '&' reaches the API as the keyword, with the default parameters around it. */
  lemma SearchUrlParameters(query: string)
    requires '&' !in query
    ensures QueryParameters(SearchUrl(query))
         == Some([("lang", "2"), ("genre", ""), ("order_by", "trending"), ("page", "1"), ("limit", "20"),
                  ("year", ""), ("rating", ""), ("keyword", query)])
  {
    QueryUrlParameters("", "trending", 1, 20, query, "", "", "2");
    assert IntToDecimal(1) == "1";
    assert IntToDecimal(20) == "20";
  }

  /** With every parameter left at its default, the url reads back as the default query. */
  lemma DefaultQueryParameters()
    ensures QueryParameters(QueryUrl())
         == Some([("lang", "2"), ("genre", ""), ("order_by", "trending"), ("page", "1"), ("limit", "20"),
                  ("year", ""), ("rating", ""), ("keyword", "")])
  {
    QueryUrlParameters("", "trending", 1, 20, "", "", "", "2");
    assert IntToDecimal(1) == "1";
    assert IntToDecimal(20) == "20";
  }

  function Max(a: int, b: int): (m: int)
    ensures m >= a && m >= b && (m == a || m == b)
  {
    if a < b then b else a
  }

  /**
   * The main page's next-page rule: some category came back full, that is
   * with at least `limit` records; equivalently, the largest of the three
   * lists reaches the limit.
   */
  function HasNextPage(action: DataJSON, trending: DataJSON, releases: DataJSON, limit: Int32): (r: bool)
    ensures r <==> Max(Max(|action.list|, |trending.list|), |releases.list|) >= limit as int
  {
    |action.list| >= limit as int || |trending.list| >= limit as int || |releases.list| >= limit as int
  }
}
