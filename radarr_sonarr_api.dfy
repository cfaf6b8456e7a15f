/**
  RadarrSonarrAPI: the record decisions of check_movie_availability and
  check_tv_availability over the lists that Radarr and Sonarr return.  The
  HTTP reads are inputs (FetchFailed for a failed request or a body that is
  not JSON); every exception inside a check ends in (False, None), so the
  retry wrapper around it never calls it twice.
*/
module RadarrSonarr {
  import opened Wrappers
  import opened PyText
  import opened PyJson
  import OverseerrApi

  /**
    The pair (is_available, record or None).  For a movie the first half is
    the raw `hasFile` value, which need not be a bool.
  */
  datatype Answer = Answer(available: Json, record: Option<Json>)

  const NotFound: Answer := Answer(JBool(false), None)

  /**
    `next((x for x in xs if x.get(k) == id), None)` from position `from` on:
    the index of the first dict whose `k` equals `id`, Ok(None) when there is
    none, and AttributeError when a non-dict is met first.
  */
  function FirstWithId(xs: seq<Json>, k: string, id: int, from: nat): (r: Result<Option<nat>>)
    requires from <= |xs|
    ensures r.Ok? && r.value.Some? ==>
      from <= r.value.value < |xs| && xs[r.value.value].JObj? && EqInt(Get(xs[r.value.value], k), id)
    decreases |xs| - from
  {
    if from == |xs| then Ok(None)
    else if !xs[from].JObj? then Err(AttributeError)
    else if EqInt(Get(xs[from], k), id) then Ok(Some(from))
    else FirstWithId(xs, k, id, from + 1)
  }

  /** Every item from `from` up to m is a dict without the id. */
  predicate NoMatchBefore(xs: seq<Json>, k: string, id: int, from: nat, m: nat)
    requires m <= |xs|
  {
    forall j | from <= j < m :: xs[j].JObj? && !EqInt(Get(xs[j], k), id)
  }

  /** What the scan finds: the first match, None when every item is a dict without one, or the non-dict met first. */
  lemma {:induction false} FirstWithIdSpec(xs: seq<Json>, k: string, id: int, from: nat)
    requires from <= |xs|
    ensures FirstWithId(xs, k, id, from).Ok? && FirstWithId(xs, k, id, from).value.Some? ==>
      NoMatchBefore(xs, k, id, from, FirstWithId(xs, k, id, from).value.value)
    ensures FirstWithId(xs, k, id, from) == Ok(None) <==> NoMatchBefore(xs, k, id, from, |xs|)
    ensures FirstWithId(xs, k, id, from).Err? ==>
      FirstWithId(xs, k, id, from).error == AttributeError &&
      exists m | from <= m < |xs| :: !xs[m].JObj? && NoMatchBefore(xs, k, id, from, m)
    decreases |xs| - from
  {
    if from < |xs| && xs[from].JObj? && !EqInt(Get(xs[from], k), id) {
      FirstWithIdSpec(xs, k, id, from + 1);
      var r := FirstWithId(xs, k, id, from + 1);
      if r.Err? {
        var m :| from + 1 <= m < |xs| && !xs[m].JObj? && NoMatchBefore(xs, k, id, from + 1, m);
        assert NoMatchBefore(xs, k, id, from, m);
      }
    } else if from < |xs| && !xs[from].JObj? {
      assert NoMatchBefore(xs, k, id, from, from);
    }
  }

  /** check_movie_availability over the fetched movie list. */
  function CheckMovie(movies: Fetched<Json>, tmdbId: int): Answer {
    if movies.FetchFailed? then NotFound
    else
      match Iter(movies.value)
      case Err(_) => NotFound
      case Ok(items) =>
        match FirstWithId(items, "tmdbId", tmdbId, 0)
        case Err(_) => NotFound
        case Ok(None) => NotFound
        case Ok(Some(m)) => Answer(GetOr(items[m], "hasFile", JBool(false)), Some(items[m]))
  }

  /**
    The first movie with the tmdb id is returned with its `hasFile` (False
    when the key is missing); without a match the movie is not found.
  */
  lemma CheckMovieFirstMatch(movies: seq<Json>, tmdbId: int, m: nat)
    requires m < |movies| && movies[m].JObj? && EqInt(Get(movies[m], "tmdbId"), tmdbId)
    requires forall j | 0 <= j < m :: movies[j].JObj? && !EqInt(Get(movies[j], "tmdbId"), tmdbId)
    ensures CheckMovie(Fetched(JArr(movies)), tmdbId) ==
      Answer(GetOr(movies[m], "hasFile", JBool(false)), Some(movies[m]))
  {
    FirstWithIdSpec(movies, "tmdbId", tmdbId, 0);
    var r := FirstWithId(movies, "tmdbId", tmdbId, 0);
    assert r.Ok? && r.value.Some? ==> r.value.value == m;
  }

  lemma CheckMovieNoMatch(movies: seq<Json>, tmdbId: int)
    requires forall j | 0 <= j < |movies| :: movies[j].JObj? && !EqInt(Get(movies[j], "tmdbId"), tmdbId)
    ensures CheckMovie(Fetched(JArr(movies)), tmdbId) == NotFound
  {
    FirstWithIdSpec(movies, "tmdbId", tmdbId, 0);
  }

  /** A movie is only ever reported available together with its record. */
  lemma CheckMovieAvailableHasRecord(movies: Fetched<Json>, tmdbId: int)
    ensures var a := CheckMovie(movies, tmdbId);
      (Truthy(a.available) ==> a.record.Some?) && (a.record.Some? ==> a.record.value.JObj? && Truthy(a.record.value))
  {
    if movies.Fetched? && Iter(movies.value).Ok? {
      FirstWithIdSpec(Iter(movies.value).value, "tmdbId", tmdbId, 0);
    }
  }

  /** `ep.get("hasFile", False)` in a boolean context. */
  predicate HasFile(ep: Json)
    requires ep.JObj?
  {
    Truthy(GetOr(ep, "hasFile", JBool(false)))
  }

  predicate AllDicts(eps: seq<Json>) {
    forall j | 0 <= j < |eps| :: eps[j].JObj?
  }

  /** `[ep for ep in eps if ep.get("seasonNumber") == n]` */
  function SeasonEpisodes(eps: seq<Json>, n: int): (r: seq<Json>)
    requires AllDicts(eps)
    ensures |r| <= |eps| && AllDicts(r)
    ensures forall j | 0 <= j < |r| :: r[j] in eps && EqInt(Get(r[j], "seasonNumber"), n)
    ensures forall j | 0 <= j < |eps| :: EqInt(Get(eps[j], "seasonNumber"), n) ==> eps[j] in r
  {
    if |eps| == 0 then []
    else
      var rest := SeasonEpisodes(eps[1..], n);
      assert forall j | 1 <= j < |eps| :: eps[j] == eps[1..][j - 1];
      if EqInt(Get(eps[0], "seasonNumber"), n) then [eps[0]] + rest else rest
  }

  /** `sum(1 for ep in eps if ep.get("hasFile", False))` */
  function WithFiles(eps: seq<Json>): (w: nat)
    requires AllDicts(eps)
    ensures w <= |eps|
    ensures w == 0 <==> forall j | 0 <= j < |eps| :: !HasFile(eps[j])
    ensures w == |eps| <==> forall j | 0 <= j < |eps| :: HasFile(eps[j])
  {
    if |eps| == 0 then 0
    else
      assert forall j | 1 <= j < |eps| :: eps[j] == eps[1..][j - 1];
      (if HasFile(eps[0]) then 1 else 0) + WithFiles(eps[1..])
  }

  /** The decision once the show and its episode list are known. */
  function EpisodesAnswer(show: Json, episodes: Json, seasonNumber: Option<int>): Answer {
    match Iter(episodes)
    case Err(_) => NotFound
    case Ok(eps) =>
      if !AllDicts(eps) then NotFound
      else
        match seasonNumber
        case Some(n) =>
          var inSeason := SeasonEpisodes(eps, n);
          if |inSeason| == 0 then Answer(JBool(false), Some(show))
          else
            var w := WithFiles(inSeason);
            Answer(JBool(w > 0 && w == |inSeason|), Some(show))
        case None => Answer(JBool(WithFiles(eps) > 0), Some(show))
  }

  /** check_tv_availability over the fetched series list and the episode list read for a series id. */
  function CheckTv(series: Fetched<Json>, episodesOf: Json -> Fetched<Json>, tvdbId: int, seasonNumber: Option<int>): Answer {
    if series.FetchFailed? then NotFound
    else
      match Iter(series.value)
      case Err(_) => NotFound
      case Ok(shows) =>
        match FirstWithId(shows, "tvdbId", tvdbId, 0)
        case Err(_) => NotFound
        case Ok(None) => NotFound
        case Ok(Some(m)) =>
          var show := shows[m];
          var fetched := episodesOf(Get(show, "id"));
          if fetched.FetchFailed? then NotFound
          else EpisodesAnswer(show, fetched.value, seasonNumber)
  }

  /** No show with the tvdb id: not found. */
  lemma CheckTvNoShow(series: seq<Json>, episodesOf: Json -> Fetched<Json>, tvdbId: int, seasonNumber: Option<int>)
    requires forall j | 0 <= j < |series| :: series[j].JObj? && !EqInt(Get(series[j], "tvdbId"), tvdbId)
    ensures CheckTv(Fetched(JArr(series)), episodesOf, tvdbId, seasonNumber) == NotFound
  {
    FirstWithIdSpec(series, "tvdbId", tvdbId, 0);
  }

  /** The first show with the tvdb id is the one whose episodes are read and decide. */
  lemma CheckTvFirstShow(series: seq<Json>, episodesOf: Json -> Fetched<Json>, tvdbId: int, seasonNumber: Option<int>, m: nat)
    requires m < |series| && series[m].JObj? && EqInt(Get(series[m], "tvdbId"), tvdbId)
    requires forall j | 0 <= j < m :: series[j].JObj? && !EqInt(Get(series[j], "tvdbId"), tvdbId)
    ensures var fetched := episodesOf(Get(series[m], "id"));
      CheckTv(Fetched(JArr(series)), episodesOf, tvdbId, seasonNumber) ==
        if fetched.FetchFailed? then NotFound else EpisodesAnswer(series[m], fetched.value, seasonNumber)
  {
    FirstWithIdSpec(series, "tvdbId", tvdbId, 0);
    var r := FirstWithId(series, "tvdbId", tvdbId, 0);
    assert r.Ok? && r.value.Some? ==> r.value.value == m;
  }

  /**
    For a season: no episodes of it give (False, show); otherwise it is
    available iff it has episodes and every one of them has a file.
  */
  lemma SeasonAnswer(show: Json, eps: seq<Json>, n: int)
    requires AllDicts(eps)
    ensures var a := EpisodesAnswer(show, JArr(eps), Some(n));
      && a.record == Some(show)
      && a.available == JBool(
           (exists j | 0 <= j < |eps| :: EqInt(Get(eps[j], "seasonNumber"), n))
           && forall j | 0 <= j < |eps| :: EqInt(Get(eps[j], "seasonNumber"), n) ==> HasFile(eps[j]))
  {
    var inSeason := SeasonEpisodes(eps, n);
    var w := WithFiles(inSeason);
    assert EpisodesAnswer(show, JArr(eps), Some(n)) == Answer(JBool(|inSeason| != 0 && w == |inSeason|), Some(show)) by {
      assert Iter(JArr(eps)) == Ok(eps);
    }
    assert (|inSeason| != 0) == exists j | 0 <= j < |eps| :: EqInt(Get(eps[j], "seasonNumber"), n) by {
      if |inSeason| != 0 {
        assert inSeason[0] in eps;
      }
    }
    assert (w == |inSeason|) == forall j | 0 <= j < |eps| :: EqInt(Get(eps[j], "seasonNumber"), n) ==> HasFile(eps[j]) by {
      if w == |inSeason| {
        forall j | 0 <= j < |eps| && EqInt(Get(eps[j], "seasonNumber"), n) ensures HasFile(eps[j]) {
          assert eps[j] in inSeason;
        }
      } else {
        var k :| 0 <= k < |inSeason| && !HasFile(inSeason[k]);
        assert inSeason[k] in eps;
      }
    }
  }

  /** For the whole show: available iff at least one episode has a file. */
  lemma ShowAnswer(show: Json, eps: seq<Json>)
    requires AllDicts(eps)
    ensures EpisodesAnswer(show, JArr(eps), None) == Answer(JBool(exists j | 0 <= j < |eps| :: HasFile(eps[j])), Some(show))
  {
  }

  /** Whenever a show is reported available its record comes with it. */
  lemma CheckTvAvailableHasRecord(series: Fetched<Json>, episodesOf: Json -> Fetched<Json>, tvdbId: int, seasonNumber: Option<int>)
    ensures var a := CheckTv(series, episodesOf, tvdbId, seasonNumber);
      Truthy(a.available) ==> a.record.Some?
  {
  }

  /** The client: both base URLs without their trailing slashes, and the two API keys. */
  class RadarrSonarrAPI {
    var radarrUrl: string
    var radarrKey: string
    var sonarrUrl: string
    var sonarrKey: string

    constructor(radarrUrl: string, radarrKey: string, sonarrUrl: string, sonarrKey: string)
      ensures this.radarrUrl == RStripChar(radarrUrl, '/') && this.radarrKey == radarrKey
      ensures this.sonarrUrl == RStripChar(sonarrUrl, '/') && this.sonarrKey == sonarrKey
    {
      this.radarrUrl := RStripChar(radarrUrl, '/');
      this.radarrKey := radarrKey;
      this.sonarrUrl := RStripChar(sonarrUrl, '/');
      this.sonarrKey := sonarrKey;
    }

    /**
      check_movie_availability under retry_on_failure(3, 2): the check never
      raises, so it is called exactly once and its answer is returned.
    */
    method CheckMovieAvailability(movies: Fetched<Json>, tmdbId: int) returns (a: Answer, calls: nat)
      ensures a == CheckMovie(movies, tmdbId) && calls == 1
    {
      var call := (_: nat) => Ok(CheckMovie(movies, tmdbId));
      var r, c, waits := OverseerrApi.RetryOnFailure(3, 2, call, (e: PyError) => e == RequestError);
      assert call(0).Ok?;
      a := r.value;
      calls := c;
    }

    /** check_tv_availability under the same wrapper: also called exactly once. */
    method CheckTvAvailability(series: Fetched<Json>, episodesOf: Json -> Fetched<Json>, tvdbId: int, seasonNumber: Option<int>)
      returns (a: Answer, calls: nat)
      ensures a == CheckTv(series, episodesOf, tvdbId, seasonNumber) && calls == 1
    {
      var call := (_: nat) => Ok(CheckTv(series, episodesOf, tvdbId, seasonNumber));
      var r, c, waits := OverseerrApi.RetryOnFailure(3, 2, call, (e: PyError) => e == RequestError);
      assert call(0).Ok?;
      a := r.value;
      calls := c;
    }
  }

  /** A base URL keeps everything up to its trailing slashes and ends in something else. */
  lemma TrimmedUrl(url: string)
    ensures var t := RStripChar(url, '/');
      t <= url && (t == [] || t[|t| - 1] != '/') && forall i | |t| <= i < |url| :: url[i] == '/'
  {
  }
}
