/**
  The helpers of utils.py: year extraction and display titles, the
  detail-based availability predicate, the IMDb link and the lazily loaded
  database checker.  Date parsing is a parameter: `parseDate(t)` is the year
  of `t` when `datetime.strptime(t, "%Y-%m-%d")` accepts it.
*/
module Utils {
  import opened Wrappers
  import opened PyText
  import opened PyJson
  import PostgresChecker

  // ---------------------------------------------------------------------------
  // safe_year and title_with_year_from_details
  // ---------------------------------------------------------------------------

  /** safe_year: the year of a full date, else four leading digits, else None. */
  function SafeYear(date: Json, parseDate: string -> Option<nat>): (r: Option<string>)
    ensures !Truthy(date) ==> r.None?
    ensures r.Some? ==> date.JStr? && IsDigitString(r.value)
  {
    if !Truthy(date) then None
    else if date.JStr? && parseDate(date.s).Some? then Some(NatToString(parseDate(date.s).value))
    else if date.JStr? && |date.s| >= 4 && IsDigitString(date.s[..4]) then Some(date.s[..4])
    else None
  }

  /** A string that is not a date gives its first four characters when they are digits, and None otherwise. */
  lemma SafeYearOfNonDate(t: string, parseDate: string -> Option<nat>)
    requires t != "" && parseDate(t).None?
    ensures SafeYear(JStr(t), parseDate) == if |t| >= 4 && IsDigitString(t[..4]) then Some(t[..4]) else None
  {
  }

  /** A date that parses gives the decimal text of its year. */
  lemma SafeYearOfDate(t: string, parseDate: string -> Option<nat>)
    requires parseDate(t).Some? && t != ""
    ensures SafeYear(JStr(t), parseDate) == Some(NatToString(parseDate(t).value))
    ensures DigitsValue(SafeYear(JStr(t), parseDate).value) == parseDate(t).value
  {
    DigitsValueOfNat(parseDate(t).value);
  }

  /** `details.get("title") or details.get("name") or "Unknown"` */
  function DisplayTitle(details: Json): (t: Json)
    requires details.JObj?
    ensures Truthy(t)
  {
    Or(Or(Get(details, "title"), Get(details, "name")), JStr("Unknown"))
  }

  /** The year of the release date (movies) or of the first air date (anything else). */
  function DetailsYear(details: Json, mediaType: string, parseDate: string -> Option<nat>): Option<string>
    requires details.JObj?
  {
    if mediaType == "movie" then SafeYear(Or(Get(details, "releaseDate"), Get(details, "release_date")), parseDate)
    else SafeYear(Or(Get(details, "firstAirDate"), Get(details, "first_air_date")), parseDate)
  }

  /**
    title_with_year_from_details: "T (Y)" when a year is found, else the title
    value itself.  None stands for a list or dict title with a year, whose
    text would be its repr.
  */
  function TitleWithYear(details: Json, mediaType: string, parseDate: string -> Option<nat>): Option<Json>
    requires details.JObj?
  {
    var title := DisplayTitle(details);
    match DetailsYear(details, mediaType, parseDate)
    case None => Some(title)
    case Some(y) =>
      match ScalarStr(title)
      case None => None
      case Some(t) => Some(JStr(t + " (" + y + ")"))
  }

  /**
    With a year the display text is the title text, a space and the year in
    parentheses; without one it is the chosen title unchanged.  The title is
    `title` when truthy, else `name` when truthy, else "Unknown".
  */
  lemma TitleWithYearSpec(details: Json, mediaType: string, parseDate: string -> Option<nat>)
    requires details.JObj?
    ensures var title := DisplayTitle(details);
      && (Truthy(Get(details, "title")) ==> title == Get(details, "title"))
      && (!Truthy(Get(details, "title")) && Truthy(Get(details, "name")) ==> title == Get(details, "name"))
      && (!Truthy(Get(details, "title")) && !Truthy(Get(details, "name")) ==> title == JStr("Unknown"))
    ensures var y := DetailsYear(details, mediaType, parseDate);
      var r := TitleWithYear(details, mediaType, parseDate);
      && (y.None? ==> r == Some(DisplayTitle(details)))
      && (y.Some? && DisplayTitle(details).JStr? ==>
            r.Some? && r.value.JStr? && DisplayTitle(details).s <= r.value.s
            && r.value.s[|DisplayTitle(details).s|..] == " (" + y.value + ")"
            && IsDigitString(y.value))
  {
    var y := DetailsYear(details, mediaType, parseDate);
    if y.Some? && DisplayTitle(details).JStr? {
      var t := DisplayTitle(details).s;
      var s := t + " (" + y.value + ")";
      assert s[..|t|] == t;
      assert s[|t|..] == " (" + y.value + ")";
    }
  }

  // ---------------------------------------------------------------------------
  // is_available
  // ---------------------------------------------------------------------------

  /** is_available_status over a raw status: int() gives 3 or 4, or str().upper() is one of the words. */
  predicate CountsAvailable(raw: Json) {
    || ToInt(raw) == Some(3) || ToInt(raw) == Some(4)
    || (raw != JNull && ScalarStr(raw).Some?
        && Upper(ScalarStr(raw).value) in {"AVAILABLE", "PARTIALLY_AVAILABLE", "READY"})
  }

  /**
    The status test: an int counts iff it is 3 or 4; text counts iff int()
    reads 3 or 4 from it or its upper case is AVAILABLE, PARTIALLY_AVAILABLE
    or READY; None, booleans, lists and dicts never count.
  */
  lemma CountsAvailableCases(raw: Json)
    ensures raw.JInt? ==> (CountsAvailable(raw) <==> raw.i == 3 || raw.i == 4)
    ensures raw.JStr? ==> (CountsAvailable(raw) <==>
      ParseInt(raw.s) == Some(3) || ParseInt(raw.s) == Some(4)
      || Upper(raw.s) in {"AVAILABLE", "PARTIALLY_AVAILABLE", "READY"})
    ensures (raw.JNull? || raw.JBool? || raw.JArr? || raw.JObj?) ==> !CountsAvailable(raw)
  {
    match raw
    case JInt(i) => CountsAvailableInt(i);
    case JBool(b) => CountsAvailableBool(b);
    case JStr(t) => CountsAvailableStr(t);
    case _ =>
  }

  lemma CountsAvailableInt(i: int)
    ensures CountsAvailable(JInt(i)) <==> i == 3 || i == 4
  {
    IntNotWord(i);
  }

  lemma CountsAvailableBool(b: bool)
    ensures !CountsAvailable(JBool(b))
  {
    BoolNotWord(b);
  }

  lemma CountsAvailableStr(t: string)
    ensures CountsAvailable(JStr(t)) <==>
      ParseInt(t) == Some(3) || ParseInt(t) == Some(4) || Upper(t) in {"AVAILABLE", "PARTIALLY_AVAILABLE", "READY"}
  {
  }

  /** The text of an int ends in a digit, so it is none of the status words. */
  lemma IntNotWord(i: int)
    ensures Upper(IntToString(i)) !in {"AVAILABLE", "PARTIALLY_AVAILABLE", "READY"}
  {
    var t := IntToString(i);
    var u := Upper(t);
    assert |u| == |t| && u[|u| - 1] == UpperChar(t[|t| - 1]);
    assert IsDigit(u[|u| - 1]);
    assert "AVAILABLE"[8] == 'E' && "PARTIALLY_AVAILABLE"[18] == 'E' && "READY"[4] == 'Y';
  }

  lemma BoolNotWord(b: bool)
    ensures Upper(if b then "True" else "False") !in {"AVAILABLE", "PARTIALLY_AVAILABLE", "READY"}
  {
    var u := Upper(if b then "True" else "False");
    assert u == "TRUE" || u == "FALSE";
  }

  /** `isinstance(x, int)` is also true of booleans, which count as 0 and 1. */
  predicate IsIntLike(x: Json) { x.JBool? || x.JInt? }

  /** The per-season test: its status counts, or its integer episode counts are complete and non-zero. */
  predicate SeasonReady(s: Json)
    requires s.JObj?
  {
    var avail := Get(s, "episodesAvailable");
    var total := Get(s, "episodeCount");
    || CountsAvailable(Get(s, "status"))
    || (IsIntLike(avail) && IsIntLike(total) && NumValue(total).value > 0
        && NumValue(avail).value >= NumValue(total).value)
  }

  /** int(x), where int() of anything else raises. */
  function IntOf(x: Json): (r: Result<int>)
    ensures r.Ok? <==> ToInt(x).Some?
    ensures r.Ok? ==> r.value == ToInt(x).value
  {
    match ToInt(x)
    case Some(n) => Ok(n)
    case None => Err(if x.JStr? then ValueError else TypeError)
  }

  /** int() gives back an integer, a bool as 0 or 1, and the text of an integer as that integer. */
  lemma IntOfValues(i: int, b: bool)
    ensures IntOf(JInt(i)) == Ok(i)
    ensures IntOf(JBool(b)) == Ok(if b then 1 else 0)
    ensures IntOf(JStr(IntToString(i))) == Ok(i)
  {
    var t := IntToString(i);
    assert ToInt(JStr(t)) == Some(i) by {
      ParseIntOfIntToString(i);
    }
  }

  /** int() of None, a list or a dict raises TypeError. */
  lemma IntOfNonNumbers(x: Json)
    requires x.JNull? || x.JArr? || x.JObj?
    ensures IntOf(x) == Err(TypeError)
  {
  }

  /** Text holding a character that no integer literal has raises ValueError. */
  lemma IntOfBadText(s: string, k: nat)
    requires k < |s| && !IsSpace(s[k]) && !IsDigit(s[k]) && s[k] !in "_+-"
    ensures IntOf(JStr(s)) == Err(ValueError)
  {
    ParseIntRejects(s, k);
  }

  /** The loop over seasons when a season number is given: true when a season with that number is ready. */
  function SeasonNumberReady(seasons: seq<Json>, n: int): Result<bool> {
    if |seasons| == 0 then Ok(false)
    else
      var s := seasons[0];
      if !s.JObj? then Err(AttributeError)
      else
        match IntOf(GetOr(s, "seasonNumber", JInt(-1)))
        case Err(e) => Err(e)
        case Ok(k) =>
          if k == n && SeasonReady(s) then Ok(true)
          else SeasonNumberReady(seasons[1..], n)
  }

  /** The loop over seasons without a number: true when any season is ready. */
  function AnySeasonReady(seasons: seq<Json>): Result<bool> {
    if |seasons| == 0 then Ok(false)
    else if !seasons[0].JObj? then Err(AttributeError)
    else if SeasonReady(seasons[0]) then Ok(true)
    else AnySeasonReady(seasons[1..])
  }

  const LibraryIdKeys: seq<string> := ["plexId", "ratingKey", "jellyfinId", "mediaId", "tmdbId"]

  /** The fallback on Overseerr's own fields, with media_info the chosen `mediaInfo`/`media` dict. */
  function CatalogAvailable(details: Json, mediaInfo: Json, mediaType: string, seasonNumber: Option<int>): Result<bool>
    requires details.JObj? && mediaInfo.JObj?
  {
    var mediaLevel := CountsAvailable(Get(mediaInfo, "status"));
    if mediaType == "tv" then
      match Iter(Or(Get(details, "seasons"), JArr([])))
      case Err(e) => Err(e)
      case Ok(seasons) =>
        match (if seasonNumber.Some? then SeasonNumberReady(seasons, seasonNumber.value) else AnySeasonReady(seasons))
        case Err(e) => Err(e)
        case Ok(b) => Ok(b || mediaLevel)
    else
      Ok(|| mediaLevel
         || (exists j | 0 <= j < |LibraryIdKeys| ::
               Truthy(Get(details, LibraryIdKeys[j])) || Truthy(Get(mediaInfo, LibraryIdKeys[j])))
         || Get(mediaInfo, "isAvailable") == JBool(true))
  }

  /** The database checker, as the rows it would read for a tmdb id (Radarr) and a tvdb id (Sonarr). */
  datatype PgSource = PgSource(movieRow: int -> Fetched<Json>, showRow: int -> Fetched<Json>)

  /**
    The database path: Some(answer) when the checker found the item, None
    when it did not or when reading the ids raised (the fallback then runs).
  */
  function PgAnswer(pg: PgSource, details: Json, mediaType: string, seasonNumber: Option<int>): Option<bool>
    requires details.JObj?
  {
    if mediaType == "movie" then
      var tmdbId := Or(Get(details, "tmdbId"), Get(details, "id"));
      if !Truthy(tmdbId) then None
      else
        match ToInt(tmdbId)
        case None => None
        case Some(id) =>
          var a := PostgresChecker.CheckMovie(pg.movieRow(id));
          if a.record.Some? then Some(a.available) else None
    else if mediaType == "tv" then
      var ext := GetOr(details, "externalIds", JObj([]));
      if !ext.JObj? then None
      else
        var tvdbId := Or(Get(ext, "tvdbId"), Get(details, "tvdbId"));
        if !Truthy(tvdbId) then None
        else
          match ToInt(tvdbId)
          case None => None
          case Some(id) =>
            var a := PostgresChecker.CheckTv(Some(id), None, seasonNumber, pg.showRow(id));
            if a.record.Some? then Some(a.available) else None
    else None
  }

  /** is_available: the database checker first, then the catalog fields; raised errors of the fallback are Err. */
  function IsAvailable(details: Json, mediaType: string, seasonNumber: Option<int>, pg: Option<PgSource>): Result<bool> {
    if !details.JObj? then Err(AttributeError)
    else if pg.Some? && PgAnswer(pg.value, details, mediaType, seasonNumber).Some? then
      Ok(PgAnswer(pg.value, details, mediaType, seasonNumber).value)
    else
      var mediaInfo := Or(Or(Get(details, "mediaInfo"), Get(details, "media")), JObj([]));
      if !mediaInfo.JObj? then Err(AttributeError)
      else CatalogAvailable(details, mediaInfo, mediaType, seasonNumber)
  }

  /**
    When the database finds the movie its answer is returned, whatever the
    catalog fields say.
  */
  lemma DatabaseDecidesMovie(details: Json, other: Json, pg: PgSource, id: int)
    requires details.JObj? && other.JObj?
    requires Get(details, "tmdbId") == JInt(id) && Get(other, "tmdbId") == JInt(id) && id != 0
    requires PostgresChecker.CheckMovie(pg.movieRow(id)).record.Some?
    ensures IsAvailable(details, "movie", None, Some(pg)) == Ok(PostgresChecker.CheckMovie(pg.movieRow(id)).available)
    ensures IsAvailable(details, "movie", None, Some(pg)) == IsAvailable(other, "movie", None, Some(pg))
  {
  }

  /** The same for a show found by its tvdb id under externalIds. */
  lemma DatabaseDecidesShow(details: Json, ext: Json, pg: PgSource, id: int, seasonNumber: Option<int>)
    requires details.JObj? && ext.JObj?
    requires Lookup(details.fields, "externalIds") == Some(ext) && Get(ext, "tvdbId") == JInt(id) && id != 0
    requires PostgresChecker.CheckTv(Some(id), None, seasonNumber, pg.showRow(id)).record.Some?
    ensures IsAvailable(details, "tv", seasonNumber, Some(pg)) ==
      Ok(PostgresChecker.CheckTv(Some(id), None, seasonNumber, pg.showRow(id)).available)
  {
  }

  /** Seasons that are dicts with readable numbers. */
  predicate WellFormedSeasons(seasons: seq<Json>) {
    forall j | 0 <= j < |seasons| :: seasons[j].JObj? && ToInt(GetOr(seasons[j], "seasonNumber", JInt(-1))).Some?
  }

  /** With a season number: true iff some season with that number is ready. */
  lemma {:induction false} SeasonNumberReadySpec(seasons: seq<Json>, n: int)
    requires WellFormedSeasons(seasons)
    ensures SeasonNumberReady(seasons, n) == Ok(exists j | 0 <= j < |seasons| ::
      ToInt(GetOr(seasons[j], "seasonNumber", JInt(-1))) == Some(n) && SeasonReady(seasons[j]))
  {
    if |seasons| > 0 {
      SeasonNumberReadySpec(seasons[1..], n);
      assert forall j | 1 <= j < |seasons| :: seasons[j] == seasons[1..][j - 1];
    }
  }

  /** Without a season number: true iff some season is ready. */
  lemma {:induction false} AnySeasonReadySpec(seasons: seq<Json>)
    requires forall j | 0 <= j < |seasons| :: seasons[j].JObj?
    ensures AnySeasonReady(seasons) == Ok(exists j | 0 <= j < |seasons| :: SeasonReady(seasons[j]))
  {
    if |seasons| > 0 {
      AnySeasonReadySpec(seasons[1..]);
      assert forall j | 1 <= j < |seasons| :: seasons[j] == seasons[1..][j - 1];
    }
  }

  /**
    The catalog fallback for TV: a ready season (with the given number when
    there is one), or else the media-level status.
  */
  lemma CatalogTvSpec(details: Json, mediaInfo: Json, seasons: seq<Json>, seasonNumber: Option<int>)
    requires details.JObj? && mediaInfo.JObj?
    requires Get(details, "seasons") == JArr(seasons) && WellFormedSeasons(seasons)
    ensures CatalogAvailable(details, mediaInfo, "tv", seasonNumber) == Ok(
      || (exists j | 0 <= j < |seasons| ::
            (seasonNumber.Some? ==> ToInt(GetOr(seasons[j], "seasonNumber", JInt(-1))) == Some(seasonNumber.value))
            && SeasonReady(seasons[j]))
      || CountsAvailable(Get(mediaInfo, "status")))
  {
    assert Or(Get(details, "seasons"), JArr([])) == JArr(seasons);
    if seasonNumber.Some? {
      SeasonNumberReadySpec(seasons, seasonNumber.value);
    } else {
      AnySeasonReadySpec(seasons);
    }
  }

  /** Without a database answer, a movie is available iff its status counts, a library id is set, or isAvailable is True. */
  lemma CatalogMovieSpec(details: Json, pg: Option<PgSource>)
    requires details.JObj?
    requires pg.None? || PgAnswer(pg.value, details, "movie", None).None?
    requires Or(Or(Get(details, "mediaInfo"), Get(details, "media")), JObj([])).JObj?
    ensures var mi := Or(Or(Get(details, "mediaInfo"), Get(details, "media")), JObj([]));
      IsAvailable(details, "movie", None, pg) == Ok(
        || CountsAvailable(Get(mi, "status"))
        || Truthy(Get(details, "plexId")) || Truthy(Get(mi, "plexId"))
        || Truthy(Get(details, "ratingKey")) || Truthy(Get(mi, "ratingKey"))
        || Truthy(Get(details, "jellyfinId")) || Truthy(Get(mi, "jellyfinId"))
        || Truthy(Get(details, "mediaId")) || Truthy(Get(mi, "mediaId"))
        || Truthy(Get(details, "tmdbId")) || Truthy(Get(mi, "tmdbId"))
        || Get(mi, "isAvailable") == JBool(true))
  {
    var mi := Or(Or(Get(details, "mediaInfo"), Get(details, "media")), JObj([]));
    var anyId := exists j | 0 <= j < |LibraryIdKeys| ::
      Truthy(Get(details, LibraryIdKeys[j])) || Truthy(Get(mi, LibraryIdKeys[j]));
    assert anyId <==>
      (Truthy(Get(details, LibraryIdKeys[0])) || Truthy(Get(mi, LibraryIdKeys[0]))) ||
      (Truthy(Get(details, LibraryIdKeys[1])) || Truthy(Get(mi, LibraryIdKeys[1]))) ||
      (Truthy(Get(details, LibraryIdKeys[2])) || Truthy(Get(mi, LibraryIdKeys[2]))) ||
      (Truthy(Get(details, LibraryIdKeys[3])) || Truthy(Get(mi, LibraryIdKeys[3]))) ||
      (Truthy(Get(details, LibraryIdKeys[4])) || Truthy(Get(mi, LibraryIdKeys[4])));
  }

  // ---------------------------------------------------------------------------
  // imdb_url_from_details
  // ---------------------------------------------------------------------------

  const ImdbPrefix: string := "https://www.imdb.com/title/"

  /** The IMDb id: imdbId or imdb_id, else imdb_id, imdbId or imdb under the external-ids dict. */
  function ImdbId(details: Json): Json
    requires details.JObj?
  {
    var direct := Or(Get(details, "imdbId"), Get(details, "imdb_id"));
    if Truthy(direct) then direct
    else
      var ext := Or(Or(Get(details, "externalIds"), Get(details, "external_ids")), JObj([]));
      if ext.JObj? then Or(Or(Get(ext, "imdb_id"), Get(ext, "imdbId")), Get(ext, "imdb")) else direct
  }

  /** imdb_url_from_details */
  function ImdbUrl(details: Json): Option<string> {
    if !Truthy(details) || !details.JObj? then None
    else
      var id := ImdbId(details);
      if Truthy(id) && id.JStr? && StartsWith(id.s, "tt") then Some(ImdbPrefix + id.s)
      else if Truthy(id) && id.JStr? && IsDigitString(id.s) then Some(ImdbPrefix + "tt" + ZFill(id.s, 7))
      else None
  }

  /**
    A link is made exactly for an id text starting with "tt" (kept as it is)
    or made of digits (zero-filled to seven after "tt"); every link names a
    "tt" title under the IMDb prefix.
  */
  lemma ImdbUrlSpec(details: Json)
    requires details.JObj? && details.fields != []
    ensures var id := ImdbId(details);
      var r := ImdbUrl(details);
      && (r.Some? <==> id.JStr? && (StartsWith(id.s, "tt") || IsDigitString(id.s)))
      && (r.Some? ==> ImdbPrefix <= r.value && "tt" <= r.value[|ImdbPrefix|..])
      && (id.JStr? && StartsWith(id.s, "tt") ==> r == Some(ImdbPrefix + id.s))
      && (id.JStr? && IsDigitString(id.s) ==>
            r == Some(ImdbPrefix + "tt" + ZFill(id.s, 7)) && |r.value| == |ImdbPrefix| + 2 + (if |id.s| >= 7 then |id.s| else 7))
  {
    var r := ImdbUrl(details);
    if r.Some? {
      var rest := r.value[|ImdbPrefix|..];
      assert r.value == ImdbPrefix + rest;
    }
  }

  /** The example the digit case is for: "1234567" links to tt1234567, "123" to tt0000123. */
  lemma ImdbUrlOfDigits()
    ensures ImdbUrl(JObj([("imdbId", JStr("123"))])) == Some("https://www.imdb.com/title/tt0000123")
  {
    var d := JObj([("imdbId", JStr("123"))]);
    assert ImdbId(d) == JStr("123");
    assert "123"[0] != "tt"[0];
    assert IsDigitString("123");
    var z := ZFill("123", 7);
    assert z == seq(4, _ => '0') + "123";
    assert z == "0000123";
    assert !StartsWith("123", "tt");
    assert ImdbPrefix + "tt" + z == "https://www.imdb.com/title/tt0000123";
  }

  // ---------------------------------------------------------------------------
  // _get_postgres_checker
  // ---------------------------------------------------------------------------

  /** The module-level cache: not loaded yet (None), loaded, or failed (the False sentinel). */
  datatype CacheState = Unset | Loaded(checker: PgSource) | Failed

  class CheckerCache {
    var state: CacheState

    constructor()
      ensures state.Unset?
    {
      state := Unset;
    }

    /**
      _get_postgres_checker: only an unset cache with the database enabled
      loads; `load` is what the import and get_postgres_checker() gave
      (FetchFailed for an exception, None for a checker never initialised,
      which leaves the cache unset so the next call tries again).
    */
    method Get(enabled: bool, load: Fetched<Option<PgSource>>) returns (r: Option<PgSource>)
      modifies this
      ensures old(state).Unset? && enabled ==>
        match load
        case FetchFailed => state == Failed && r.None?
        case Fetched(None) => state == Unset && r.None?
        case Fetched(Some(c)) => state == Loaded(c) && r == Some(c)
      ensures !(old(state).Unset? && enabled) ==> state == old(state)
      ensures state.Loaded? <==> r.Some?
      ensures r.Some? ==> r.value == state.checker
    {
      if state.Unset? && enabled {
        match load
        case FetchFailed => state := Failed;
        case Fetched(None) => state := Unset;
        case Fetched(Some(c)) => state := Loaded(c);
      }
      r := if state.Loaded? then Some(state.checker) else None;
    }
  }
}
