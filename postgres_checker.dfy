/**
  The record decisions of PostgresChecker.check_movie_availability and
  check_tv_availability.  The row that the SELECT returns is an input (a
  failed connection or query is FetchFailed, no row is a falsy value); every
  exception inside a check, a missing key read for the log line included,
  ends in (False, None).
*/
module PostgresChecker {
  import opened Wrappers
  import opened PyJson

  /** The pair (is_available, row or None). */
  datatype Answer = Answer(available: bool, record: Option<Json>)

  const NotFound: Answer := Answer(false, None)

  /** Every key that the log line reads with result[k] is present. */
  predicate HasKeys(row: Json, keys: seq<string>)
    requires row.JObj?
  {
    forall j | 0 <= j < |keys| :: Lookup(row.fields, keys[j]).Some?
  }

  /** A fetched row that the checks go on to read: truthy and a dict. */
  predicate IsRow(fetched: Fetched<Json>) {
    fetched.Fetched? && Truthy(fetched.value) && fetched.value.JObj?
  }

  const MovieLogKeys: seq<string> := ["title", "year", "hasfile", "status"]

  /** check_movie_availability over the row found for the tmdb id. */
  function CheckMovie(fetched: Fetched<Json>): Answer {
    if !IsRow(fetched) then NotFound
    else
      var row := fetched.value;
      var available := GetOr(row, "hasfile", JBool(false)) == JBool(true);
      if !HasKeys(row, MovieLogKeys) then NotFound
      else Answer(available, Some(row))
  }

  /**
    A movie is reported iff its row exists and carries the logged columns;
    it is available iff `hasfile` is the value True itself (`is True`: the
    integer 1 does not count), and an available movie always comes with its row.
  */
  lemma CheckMovieSpec(fetched: Fetched<Json>)
    ensures var a := CheckMovie(fetched);
      && (a.record.Some? <==> IsRow(fetched) && HasKeys(fetched.value, MovieLogKeys))
      && (a.record.Some? ==> a.record.value == fetched.value)
      && (a.available <==> a.record.Some? && Lookup(fetched.value.fields, "hasfile") == Some(JBool(true)))
      && (a.available ==> a.record.Some?)
  {
  }

  // ---------------------------------------------------------------------------
  // check_tv_availability
  // ---------------------------------------------------------------------------

  /** The decision for the season that matched: (percent == 100 or files >= total) and files > 0. */
  function SeasonStats(season: Json): (r: Result<bool>)
    requires season.JObj?
  {
    var stats := GetOr(season, "statistics", JObj([]));
    if !stats.JObj? then Err(AttributeError)
    else
      var percent := GetOr(stats, "percentOfEpisodes", JInt(0));
      var files := GetOr(stats, "episodeFileCount", JInt(0));
      var total := GetOr(stats, "totalEpisodeCount", JInt(0));
      var enough := if EqInt(percent, 100) then Ok(true) else Ge(files, total);
      match enough
      case Err(e) => Err(e)
      case Ok(false) => Ok(false)
      case Ok(true) => Gt(files, JInt(0))
  }

  /** The loop over seasons for a given number: Ok(None) when no season has it. */
  function SeasonCheck(seasons: seq<Json>, n: int): Result<Option<bool>> {
    if |seasons| == 0 then Ok(None)
    else
      var s := seasons[0];
      if !s.JObj? then Err(AttributeError)
      else if EqInt(Get(s, "seasonNumber"), n) then
        match SeasonStats(s)
        case Err(e) => Err(e)
        case Ok(b) => Ok(Some(b))
      else SeasonCheck(seasons[1..], n)
  }

  /** One season's `stats.get('episodeFileCount', 0) > 0`. */
  function SeasonHasFiles(season: Json): Result<bool> {
    if !season.JObj? then Err(AttributeError)
    else
      var stats := GetOr(season, "statistics", JObj([]));
      if !stats.JObj? then Err(AttributeError)
      else Gt(GetOr(stats, "episodeFileCount", JInt(0)), JInt(0))
  }

  /** The has_any_files loop, which stops at the first season with files. */
  function AnySeasonHasFiles(seasons: seq<Json>): Result<bool> {
    if |seasons| == 0 then Ok(false)
    else
      match SeasonHasFiles(seasons[0])
      case Err(e) => Err(e)
      case Ok(true) => Ok(true)
      case Ok(false) => AnySeasonHasFiles(seasons[1..])
  }

  /** `if tvdb_id:` for an optional id. */
  predicate IdGiven(id: Option<int>) {
    id.Some? && id.value != 0
  }

  /**
    check_tv_availability: only a tvdb id leads to a query (a tmdb id alone is
    refused); `fetched` is the sonarr row found for it.
  */
  function CheckTv(tvdbId: Option<int>, tmdbId: Option<int>, seasonNumber: Option<int>, fetched: Fetched<Json>): Answer {
    if !IdGiven(tvdbId) && !IdGiven(tmdbId) then NotFound
    else if !IdGiven(tvdbId) then NotFound
    else if !IsRow(fetched) then NotFound
    else
      var row := fetched.value;
      var seasons := GetOr(row, "seasons", JArr([]));
      var titled := HasKeys(row, ["title"]);
      if !Truthy(seasons) then
        if titled then Answer(false, Some(row)) else NotFound
      else
        match Iter(seasons)
        case Err(_) => NotFound
        case Ok(items) =>
          match seasonNumber
          case Some(n) =>
            (match SeasonCheck(items, n)
             case Err(_) => NotFound
             case Ok(None) => if titled then Answer(false, Some(row)) else NotFound
             case Ok(Some(b)) => if titled then Answer(b, Some(row)) else NotFound)
          case None =>
            (match AnySeasonHasFiles(items)
             case Err(_) => NotFound
             case Ok(b) => if titled then Answer(b, Some(row)) else NotFound)
  }

  /** Without a tvdb id (no id at all, or only a tmdb id) the show is not found. */
  lemma CheckTvNeedsTvdb(tvdbId: Option<int>, tmdbId: Option<int>, seasonNumber: Option<int>, fetched: Fetched<Json>)
    requires !IdGiven(tvdbId)
    ensures CheckTv(tvdbId, tmdbId, seasonNumber, fetched) == NotFound
  {
  }

  /** A show whose seasons are empty is reported, not available, with its row. */
  lemma CheckTvEmptySeasons(tvdbId: Option<int>, tmdbId: Option<int>, seasonNumber: Option<int>, fetched: Fetched<Json>)
    requires IdGiven(tvdbId) && IsRow(fetched) && HasKeys(fetched.value, ["title"])
    requires !Truthy(GetOr(fetched.value, "seasons", JArr([])))
    ensures CheckTv(tvdbId, tmdbId, seasonNumber, fetched) == Answer(false, Some(fetched.value))
  {
  }

  /** The first season carrying the number decides; later ones are never read. */
  lemma {:induction false} SeasonCheckFirstMatch(seasons: seq<Json>, n: int, i: nat)
    requires i < |seasons|
    requires forall j | 0 <= j <= i :: seasons[j].JObj?
    requires forall j | 0 <= j < i :: !EqInt(Get(seasons[j], "seasonNumber"), n)
    requires EqInt(Get(seasons[i], "seasonNumber"), n)
    ensures SeasonCheck(seasons, n) ==
      match SeasonStats(seasons[i]) case Err(e) => Err(e) case Ok(b) => Ok(Some(b))
  {
    if i > 0 {
      SeasonCheckFirstMatch(seasons[1..], n, i - 1);
    }
  }

  /** With every season a dict and none carrying the number, the season is missing. */
  lemma {:induction false} SeasonCheckMissing(seasons: seq<Json>, n: int)
    requires forall j | 0 <= j < |seasons| :: seasons[j].JObj? && !EqInt(Get(seasons[j], "seasonNumber"), n)
    ensures SeasonCheck(seasons, n) == Ok(None)
  {
    if |seasons| > 0 {
      SeasonCheckMissing(seasons[1..], n);
    }
  }

  /**
    A titled show whose season list is truthy and iterable, with every season
    a dict and none numbered n, is reported not available with its row.
  */
  lemma CheckTvSeasonMissing(tvdbId: Option<int>, tmdbId: Option<int>, n: int, fetched: Fetched<Json>, items: seq<Json>)
    requires IdGiven(tvdbId) && IsRow(fetched) && HasKeys(fetched.value, ["title"])
    requires Truthy(GetOr(fetched.value, "seasons", JArr([])))
    requires Iter(GetOr(fetched.value, "seasons", JArr([]))) == Ok(items)
    requires forall j | 0 <= j < |items| :: items[j].JObj? && !EqInt(Get(items[j], "seasonNumber"), n)
    ensures CheckTv(tvdbId, tmdbId, Some(n), fetched) == Answer(false, Some(fetched.value))
  {
    SeasonCheckMissing(items, n);
  }

  /**
    For a titled show with a truthy, iterable season list, the first season
    numbered n decides: its statistics give the answer, returned with the
    row, and an error in reading them gives (False, None).
  */
  lemma CheckTvSeasonDecides(tvdbId: Option<int>, tmdbId: Option<int>, n: int, fetched: Fetched<Json>, items: seq<Json>, i: nat)
    requires IdGiven(tvdbId) && IsRow(fetched) && HasKeys(fetched.value, ["title"])
    requires Truthy(GetOr(fetched.value, "seasons", JArr([])))
    requires Iter(GetOr(fetched.value, "seasons", JArr([]))) == Ok(items)
    requires i < |items|
    requires forall j | 0 <= j <= i :: items[j].JObj?
    requires forall j | 0 <= j < i :: !EqInt(Get(items[j], "seasonNumber"), n)
    requires EqInt(Get(items[i], "seasonNumber"), n)
    ensures SeasonStats(items[i]).Ok? ==>
      CheckTv(tvdbId, tmdbId, Some(n), fetched) == Answer(SeasonStats(items[i]).value, Some(fetched.value))
    ensures SeasonStats(items[i]).Err? ==> CheckTv(tvdbId, tmdbId, Some(n), fetched) == NotFound
  {
    SeasonCheckFirstMatch(items, n, i);
  }

  /** The matched season's counts decide as (percent == 100 or files >= total) and files > 0. */
  lemma SeasonStatsOfCounts(season: Json, stats: Json, percent: int, files: int, total: int)
    requires season.JObj? && stats.JObj?
    requires Lookup(season.fields, "statistics") == Some(stats)
    requires Lookup(stats.fields, "percentOfEpisodes") == Some(JInt(percent))
    requires Lookup(stats.fields, "episodeFileCount") == Some(JInt(files))
    requires Lookup(stats.fields, "totalEpisodeCount") == Some(JInt(total))
    ensures SeasonStats(season) == Ok((percent == 100 || files >= total) && files > 0)
  {
  }

  /** With well-formed seasons, any-season mode is available iff some season has files. */
  lemma {:induction false} AnySeasonSpec(seasons: seq<Json>)
    requires forall j | 0 <= j < |seasons| :: SeasonHasFiles(seasons[j]).Ok?
    ensures AnySeasonHasFiles(seasons) == Ok(exists j | 0 <= j < |seasons| :: SeasonHasFiles(seasons[j]) == Ok(true))
  {
    if |seasons| > 0 {
      AnySeasonSpec(seasons[1..]);
      assert forall j | 1 <= j < |seasons| :: seasons[j] == seasons[1..][j - 1];
    }
  }

  /**
    Whenever the show is reported available its row comes with it.  Every
    failure is (False, None): no tvdb id, no row, a row without a title, a
    season list that cannot be iterated, and an error inside either season loop.
  */
  lemma CheckTvAvailableHasRecord(tvdbId: Option<int>, tmdbId: Option<int>, seasonNumber: Option<int>, fetched: Fetched<Json>)
    ensures var a := CheckTv(tvdbId, tmdbId, seasonNumber, fetched);
      (a.available ==> a.record.Some?) && (a.record.Some? ==> IsRow(fetched) && a.record.value == fetched.value)
    ensures !IdGiven(tvdbId) || !IsRow(fetched) ==> CheckTv(tvdbId, tmdbId, seasonNumber, fetched) == NotFound
    ensures IsRow(fetched) && !HasKeys(fetched.value, ["title"]) ==>
      CheckTv(tvdbId, tmdbId, seasonNumber, fetched) == NotFound
    ensures (IsRow(fetched) && Truthy(GetOr(fetched.value, "seasons", JArr([]))) &&
      Iter(GetOr(fetched.value, "seasons", JArr([]))).Err?) ==>
      CheckTv(tvdbId, tmdbId, seasonNumber, fetched) == NotFound
    ensures (IsRow(fetched) && Truthy(GetOr(fetched.value, "seasons", JArr([]))) && seasonNumber.Some? &&
      Iter(GetOr(fetched.value, "seasons", JArr([]))).Ok? &&
      SeasonCheck(Iter(GetOr(fetched.value, "seasons", JArr([]))).value, seasonNumber.value).Err?) ==>
      CheckTv(tvdbId, tmdbId, seasonNumber, fetched) == NotFound
    ensures (IsRow(fetched) && Truthy(GetOr(fetched.value, "seasons", JArr([]))) && seasonNumber.None? &&
      Iter(GetOr(fetched.value, "seasons", JArr([]))).Ok? &&
      AnySeasonHasFiles(Iter(GetOr(fetched.value, "seasons", JArr([]))).value).Err?) ==>
      CheckTv(tvdbId, tmdbId, seasonNumber, fetched) == NotFound
  {
  }
}
