# Overseerr Telegram bot: a verified model of its availability core

This project models the core of a Telegram bot that forwards movie and TV
requests to Overseerr and tells users when what they asked for can be
watched. The central question is "is this movie, or this season of a show,
ready yet?". The bot answers it from several sources of records:

- the Overseerr catalogue record (`get_canonical_status`);
- the Radarr/Sonarr databases read through Postgres;
- the Radarr/Sonarr HTTP APIs.

Around that question sit:

- a watchlist of pending requests, and the periodic sweep that notifies
  users and prunes the list;
- the request log;
- configuration parsing from the environment;
- the colon-separated callback strings of the inline buttons;
- per-user message tracking;
- backup listing, retention and restore;
- the health counters and their HTTP routing.

Records from outside sources are values of a JSON datatype (`PyJson.Json`:
null, bool, int, string, list, and an ordered list of key/value pairs for a
dict). Fetches, sends, deletions and file writes become parameters: a
fetched value or `FetchFailed`, and a boolean "it succeeded". Python's
`str` operations used by the bot (strip, upper/lower, split, rsplit,
`int()`, comparison) are written out in `PyText`.

Modules (one per source file, plus three shared ones):

| module | models |
|---|---|
| `Wrappers` | Option / Result, and the Python exception classes that matter here |
| `PyText` | the parts of Python's `str` the bot uses: Unicode whitespace, strip, ASCII-only case mapping and digits, split, join, `int()` of ASCII text, `str(int)`, `zfill`, `<` on strings |
| `PyJson` | JSON values, `dict.get`, truthiness, `==` / `>=` between numbers and bools, iteration, `str()` of scalars |
| `OverseerrApi` | `_normalize_status`, `get_canonical_status`, `_search_for_keys`, `retry_on_failure`, `search_media` |
| `PostgresChecker` | the record decisions of `check_movie_availability` / `check_tv_availability` |
| `RadarrSonarr` | `RadarrSonarrAPI` and its two checks, with the retry wrapper |
| `Utils` | `safe_year`, `title_with_year_from_details`, `is_available`, `imdb_url_from_details`, `_get_postgres_checker` |
| `Config` | `_get_env`, `_parse_libraries`, `validate_config`, `ADMIN_USER_IDS`, `POSTGRES_ENABLED` |
| `Database` | the watchlist file (`WatchStore`), the request log (`RequestLog`), the JSON fallbacks of the queries |
| `Availability` | `check_availability_job` |
| `Handlers` | `track_message` / `cleanup_messages`, callback strings, library-name lookup, truncation, percentages |
| `Backup` | `create_backup`, `restore_backup`, `list_backups`, `cleanup_old_backups` over a `Disk` object |
| `HealthCheck` | `BotHealthStatus`, its singleton and counters, `_format_uptime`, `do_GET` routing |

Where the code and its documentation disagree, the model follows the code.
Two such places:

- `STATUS_MAP` lists `1: "PENDING"`, but the later key `True` is the same
  key in Python. Status 1 therefore resolves to AVAILABLE
  (overseerr_api.py:241, 245).
- With requested seasons none of which is full, `get_canonical_status`
  does not answer PARTIALLY_AVAILABLE. It falls through to the
  linked-library ids.

## Model

| member | source | states |
|---|---|---|
| OverseerrApi.NormalizeBoolAsInt | overseerr_api.py:171-181 | True and False are normalised exactly as the integers 1 and 0, giving AVAILABLE and MISSING |
| OverseerrApi.NormalizeTextOfNormalWord | overseerr_api.py:184-215 | each of the seven status words normalises to itself |
| OverseerrApi.NormalizeStatusForm | overseerr_api.py:160-215 | the result is one of the seven status words, or else the input text stripped and upper-cased |
| OverseerrApi.NormalizeStatusIdempotent | overseerr_api.py:184-215 | normalising an already normalised value returns it unchanged |
| OverseerrApi.Word | overseerr_api.py:226-228 | a reported status is one of the five canonical words |
| OverseerrApi.StatusMapGet | overseerr_api.py:240-293 | the lookup raises exactly for an unhashable (list or dict) value |
| OverseerrApi.StatusMapNumbers | overseerr_api.py:240-293 | a bool maps like the integer it equals; an integer maps to AVAILABLE iff it is 1 or 4, and to UNKNOWN iff it is outside 1..4 |
| OverseerrApi.SafeGetAppend | overseerr_api.py:231-238 | following p then q is following p + q; a non-empty path from a non-dict gives None; one key into a dict is `get` |
| OverseerrApi.FirstCandidateSpec | overseerr_api.py:280-295 | nothing is decided iff every candidate is None or maps to UNKNOWN; otherwise the first candidate whose value is set and not UNKNOWN decides, with its own name as the source |
| OverseerrApi.IsFull | overseerr_api.py:305-310 | a non-dict season raises; status 4 or "AVAILABLE" makes a season full; otherwise numeric counts decide as episodesAvailable (0 when missing) >= episodeCount (1 when missing), and the test raises iff the two are neither both numbers nor both strings |
| OverseerrApi.FilterSeasons | overseerr_api.py:313-319 | the kept seasons are seasons of the input that pass the test; keeping as many as the input means keeping all |
| OverseerrApi.FilterKeepsPassing | overseerr_api.py:313-319 | when no test raises, every season that passes is kept |
| OverseerrApi.FilterOnePassing | overseerr_api.py:313-319 | when exactly one season passes, the filter keeps it alone |
| OverseerrApi.SeasonVerdict | overseerr_api.py:297-323 | every season-level verdict names a non-empty source |
| OverseerrApi.LinkedIdVerdict | overseerr_api.py:326-330 | the source is "fallback" (with UNKNOWN) iff no linked id is truthy; otherwise AVAILABLE with `id:<key>` for a truthy key |
| OverseerrApi.CanonicalStatusShape | overseerr_api.py:226-277 | a non-dict record gives (UNKNOWN, no_media_dict); every verdict carries a non-empty source |
| OverseerrApi.FailedFetchIsFallback | overseerr_api.py:271-330 | a failed fetch is an empty dict, which resolves to (UNKNOWN, fallback) |
| OverseerrApi.StatusOneIsAvailable | overseerr_api.py:241-295 | integer status 1 under mediaInfo is reported AVAILABLE from mediaInfo.status |
| OverseerrApi.RequestedNoneFullFallsThrough | overseerr_api.py:312-330 | with seasons requested and none full, the answer comes from the linked ids, never PARTIALLY_AVAILABLE |
| OverseerrApi.FilterCount | overseerr_api.py:313 | when no test raises, the comprehension's length is the number of seasons that pass |
| OverseerrApi.RequestedSeasonsVerdict | overseerr_api.py:312-317 | with seasons requested and no test raising: as many requested full seasons as requested numbers gives AVAILABLE (requested_full), some gives PARTIALLY_AVAILABLE (requested_partial), none falls through to the linked ids |
| OverseerrApi.PassCountByNumber | overseerr_api.py:313 | with distinct requested numbers, the requested full seasons are counted number by number |
| OverseerrApi.RequestedAllFull | overseerr_api.py:312-315 | distinct requested numbers, each carried by exactly one full season, give AVAILABLE from requested_full |
| OverseerrApi.RequestedSomeFull | overseerr_api.py:312-317 | distinct requested numbers, each carried by at most one full season, some carried and some not, give PARTIALLY_AVAILABLE from requested_partial |
| OverseerrApi.RequestedCountsSeasons | overseerr_api.py:313-315 | the test counts seasons, not numbers: two full seasons with the first of two requested numbers and none with the second still give AVAILABLE |
| OverseerrApi.AllSeasonsFull | overseerr_api.py:318-321 | with no seasons requested and every season full, the record is AVAILABLE from seasons.all_full |
| OverseerrApi.SomeSeasonsFull | overseerr_api.py:318-323 | with no seasons requested and some but not all seasons full, the record is PARTIALLY_AVAILABLE |
| OverseerrApi.OneRequestedSeasonFull | overseerr_api.py:312-315 | with one requested season matched by exactly one full season, the record is AVAILABLE from seasons.requested_full |
| OverseerrApi.AllKept | overseerr_api.py:319-321 | when every season is full the filter keeps them all |
| OverseerrApi.SearchForKeys | overseerr_api.py:138-157 | a found value sits under a status-like key of some nested dict, and is labelled `key:<that key>` |
| OverseerrApi.SearchForKeysComplete | overseerr_api.py:138-157 | the search finds something iff some nested dict has a key containing "status" or "available" |
| OverseerrApi.SearchFieldsComplete | overseerr_api.py:140-151 | the dict scan finds something iff some later field has a status-like key or nests one |
| OverseerrApi.SearchItemsComplete | overseerr_api.py:152-156 | the list scan finds something iff some later item nests a status-like key |
| OverseerrApi.RetryOnFailure | overseerr_api.py:39-57 | at most max_retries calls; every call but the last raised a caught exception; waits are backoff**attempt; the last result is returned or re-raised; no attempt gives None |
| OverseerrApi.HitsUpToSound | overseerr_api.py:116-128 | the loop raises iff a non-dict result is met; every hit is the mapping of a result of the requested type |
| OverseerrApi.HitsKeepMatching | overseerr_api.py:117-128 | every result of the requested type becomes a hit |
| OverseerrApi.SearchMedia | overseerr_api.py:111-130 | the method's result is the filtered and mapped result list |
| OverseerrApi.ParseHits | overseerr_api.py:117-128 | the result loop computes the filtered and mapped hits, stopping at the first non-dict |
| PostgresChecker.CheckMovieSpec | postgres_checker.py:48-95 | a movie is reported iff its row exists with the logged columns; it is available iff hasfile is True, and then its row is returned |
| PostgresChecker.CheckTvNeedsTvdb | postgres_checker.py:112-131 | without a tvdb id (none at all, or only a tmdb id) the show is not found |
| PostgresChecker.CheckTvEmptySeasons | postgres_checker.py:139-142 | a show with empty seasons gives (False, row) |
| PostgresChecker.SeasonCheckFirstMatch | postgres_checker.py:145-163 | the first season with the number decides |
| PostgresChecker.SeasonCheckMissing | postgres_checker.py:145-146 | with every season a dict and none numbered n, the season loop finds nothing |
| PostgresChecker.CheckTvSeasonMissing | postgres_checker.py:143-166 | a titled show with a truthy, iterable season list and no season numbered n gives (False, row) |
| PostgresChecker.CheckTvSeasonDecides | postgres_checker.py:143-163 | the first season numbered n decides: its statistics give the answer with the row, and an error reading them gives (False, None) |
| PostgresChecker.SeasonStatsOfCounts | postgres_checker.py:150-163 | the matched season is available iff (percent == 100 or files >= total) and files > 0 |
| PostgresChecker.AnySeasonSpec | postgres_checker.py:168-180 | without a season number, available iff some season has episodeFileCount > 0 |
| PostgresChecker.CheckTvAvailableHasRecord | postgres_checker.py:112-184 | an available show always comes with its row; no tvdb id, no row, a row without a title, seasons that cannot be iterated and an error in either season loop each give (False, None) |
| RadarrSonarr.FirstWithIdSpec | radarr_sonarr_api.py:67-112 | the first dict whose id matches, None iff every item is a dict without it, AttributeError iff a non-dict comes first |
| RadarrSonarr.CheckMovieFirstMatch | radarr_sonarr_api.py:67-81 | the first movie with the tmdb id is returned with its hasFile (False when missing) |
| RadarrSonarr.CheckMovieNoMatch | radarr_sonarr_api.py:74-76 | no movie with the tmdb id gives (False, None) |
| RadarrSonarr.CheckMovieAvailableHasRecord | radarr_sonarr_api.py:46-86 | a movie reported available always comes with its record |
| RadarrSonarr.SeasonEpisodes | radarr_sonarr_api.py:126-129 | the episodes kept are exactly those of the season |
| RadarrSonarr.WithFiles | radarr_sonarr_api.py:136-150 | the count is 0 iff no episode has a file and the total iff all do |
| RadarrSonarr.CheckTvNoShow | radarr_sonarr_api.py:110-114 | no series with the tvdb id gives (False, None) |
| RadarrSonarr.CheckTvFirstShow | radarr_sonarr_api.py:110-124 | the first series with the tvdb id is the one whose episodes decide |
| RadarrSonarr.SeasonAnswer | radarr_sonarr_api.py:126-145 | a season without episodes gives (False, show); otherwise available iff every one of its episodes has a file |
| RadarrSonarr.ShowAnswer | radarr_sonarr_api.py:146-158 | without a season, available iff at least one episode has a file |
| RadarrSonarr.CheckTvAvailableHasRecord | radarr_sonarr_api.py:88-162 | a show reported available always comes with its record |
| RadarrSonarr.RadarrSonarrAPI.constructor | radarr_sonarr_api.py:37-44 | both URLs lose their trailing '/' and the keys are stored |
| RadarrSonarr.RadarrSonarrAPI.CheckMovieAvailability | radarr_sonarr_api.py:46-86 | the decorated check runs once (its own handler turns failures into (False, None)) and returns the record decision |
| RadarrSonarr.RadarrSonarrAPI.CheckTvAvailability | radarr_sonarr_api.py:88-162 | the same for shows |
| RadarrSonarr.TrimmedUrl | radarr_sonarr_api.py:38-40 | a trimmed URL is a prefix of the original, does not end in '/', and only '/' was removed |
| Utils.SafeYear | utils.py:34-49 | a falsy value gives None; a year is always a digit string of a string input |
| Utils.SafeYearOfNonDate | utils.py:45-49 | a non-date gives its first four characters when they are digits, else None |
| Utils.SafeYearOfDate | utils.py:40-41 | a parsed date gives the decimal text of its year |
| Utils.DisplayTitle | utils.py:54 | the title shown is always truthy |
| Utils.TitleWithYearSpec | utils.py:52-61 | the title is title, else name, else "Unknown"; with a year the text is "T (Y)", otherwise T |
| Utils.CountsAvailableCases | utils.py:126-142 | an int counts iff it is 3 or 4; text counts iff int() reads 3 or 4 or it upper-cases to AVAILABLE, PARTIALLY_AVAILABLE or READY; None, bools, lists and dicts never count |
| Utils.IntOfValues | utils.py:151 | int() gives an integer back, a bool as 0 or 1, and `int(str(i)) == i` |
| Utils.IntOfNonNumbers | utils.py:151 | int() of None, a list or a dict raises TypeError |
| Utils.IntOfBadText | utils.py:151 | text holding a character that is not whitespace, a digit, `_` or a sign raises ValueError |
| Utils.DatabaseDecidesMovie | utils.py:86-96 | a movie the database finds gets the database's answer, whatever the catalogue fields say |
| Utils.DatabaseDecidesShow | utils.py:100-113 | a show found by its tvdb id gets the database's answer |
| Utils.SeasonNumberReadySpec | utils.py:148-167 | with a season number, true iff a season with that number is ready |
| Utils.AnySeasonReadySpec | utils.py:172-188 | without a season number, true iff some season is ready |
| Utils.CatalogTvSpec | utils.py:144-190 | for TV: a ready season (with the given number, if any), or else the media-level status |
| Utils.CatalogMovieSpec | utils.py:192-205 | a movie is available iff its status counts, a library id is truthy in details or mediaInfo, or isAvailable is True |
| Utils.ImdbUrlSpec | utils.py:212-236 | a link is made exactly for a "tt…" id (kept) or a digit id (zero-filled to 7 after "tt") |
| Utils.ImdbUrlOfDigits | utils.py:232-234 | "123" links to tt0000123 |
| Utils.CheckerCache.Get | utils.py:17-27 | the loader runs only while nothing is cached and Postgres is enabled; a failure is remembered as the False sentinel; the result is the cached checker or None |
| Config.GetEnv | config.py:30-35 | raises, with its message, iff the variable is required and its value (the default when unset) is missing or empty; otherwise returns that value |
| Config.GetEnvRequired | config.py:30-35 | a required variable is accepted iff it is set to a non-empty value |
| Config.LookupId | config.py:55 | a name has an id iff it is in the dict |
| Config.PutSpec | config.py:55 | after `libraries[name] = id` the name reads id, every other name is unchanged, and an existing name keeps its place |
| Config.ParseItem | config.py:51-55 | a blank item adds nothing; a failure is ValueError; a parsed name is stripped |
| Config.InsertNext | config.py:50-55 | one loop step inserts the item's pair, skips a blank item, or stops at a failure |
| Config.InsertFailed | config.py:49-57 | once an item has failed, later items change nothing |
| Config.InsertError | config.py:49-57 | the loop fails iff one of the items fails |
| Config.InsertLookup | config.py:54-55 | a later duplicate name overwrites an earlier one |
| Config.LibrariesOfUnset | config.py:44-47 | an unset or empty variable gives {} |
| Config.LibrariesOfError | config.py:56-57 | a set variable is refused iff some item fails, always with the "Invalid format" error |
| Config.ParseItemLastColon | config.py:54 | the split is at the last ':', so a name may contain ':' |
| Config.LibrariesRoundTrip | config.py:50-55 | trimmed, comma-free, distinct names written as `name:id` with ',' parse back to the same dict |
| Config.InsertAll | config.py:50-55 | the insertion loop computes the item-by-item insertion |
| Config.ParseLibraries | config.py:38-59 | the method computes `_parse_libraries` of the variable |
| Config.MissingErrors | config.py:62-95 | no messages iff every required variable is set; each missing one is named |
| Config.MissingOf | config.py:75-77 | the loop over the required variables yields exactly their missing-variable messages, in order |
| Config.ValidateConfig | config.py:62-95 | raises iff a required variable is unset, the URL lacks http(s)://, or the token lacks ':'; unset libraries only warn |
| Config.ValidationNamesMissing | config.py:62-95 | every unset required variable is named in the error list |
| Config.IdOf | config.py:158 | one item: skipped when blank, ValueError when int() refuses it |
| Config.CollectIds | config.py:158 | the comprehension fails iff an item fails |
| Config.ParseIds | config.py:158 | the id list fails iff a non-blank item is not an integer |
| Config.AdminUserIdsRoundTrip | config.py:158 | ids written as a comma list parse back to the same ids |
| Config.AdminUserIdsUnset | config.py:158 | unset, the list is empty |
| Config.PostgresEnabledCases | config.py:140 | unset means enabled; the test ignores case; "", "0" and "false" disable it |
| Database.Filter | database.py:296-301 | a comprehension keeps exactly the passing elements |
| Database.FilterAppend | database.py:296-301 | filtering keeps the original order |
| Database.FilterIdempotent | database.py:296-301 | filtering twice equals filtering once |
| Database.NewEntry | database.py:262-271 | the new entry has the given key and chat, no known status and no confirmation id |
| Database.AddEntryUnique | database.py:251-273 | adding keeps (media_id, media_type, season) unique, whatever the chat |
| Database.AddEntrySpec | database.py:250-274 | afterwards the key is present, the old list is a prefix, at most one entry was added, and adding again changes nothing |
| Database.Without | database.py:296-303 | the key is gone, and the list shrank iff the key was present |
| Database.RemoveUndoesAdd | database.py:262-301 | removing a just-added new key restores the list |
| Database.RemoveTwice | database.py:296-309 | removing twice equals removing once |
| Database.WithConfirmation | handlers.py:1147-1157 | setting the confirmation id keeps every entry's key and chat |
| Database.WithConfirmationFirst | handlers.py:1150-1155 | only the first entry for the media and chat gets the id |
| Database.WithConfirmationUnique | handlers.py:1147-1157 | setting the confirmation id keeps keys unique |
| Database.WatchStore.Load | database.py:281-283 | the stored list, or [] when the file cannot be read |
| Database.WatchStore.Save | database.py:286-288 | the list replaces the stored one iff the write succeeds |
| Database.WatchStore.Add | database.py:239-278 | a present key writes nothing and returns True; otherwise the entry is appended and saved |
| Database.WatchStore.Update | database.py:286-288 | the whole list is replaced when the write succeeds |
| Database.WatchStore.Remove | database.py:291-309 | with a match, the filtered list is saved; without one nothing is written and the result is False |
| Database.WatchStore.SetConfirmation | handlers.py:1147-1157 | the list with the confirmation id set is written back |
| Database.RequestLog.LogRequest | database.py:136-144 | one entry is appended to the JSON log, and the result is pg_success or json_success |
| Database.UserRequestsFallbackSpec | database.py:189-191 | the user's own entries, the last `limit` of them in log order (all of them for 0) |
| Database.AllRequestsFallback | database.py:231-232 | the last `limit` entries, or all of them when limit is falsy |
| Database.UserRequests | database.py:147-191 | the query rows when the query ran, else the JSON fallback: only that user's entries, the last `limit` of them |
| Database.AllRequests | database.py:194-232 | the query rows when the query ran, else the JSON fallback |
| Availability.Verdict | availability.py:41-66 | the API path decides unless it raised, and then the catalogue status decides |
| Availability.TitleOf | availability.py:36 | the title used in a notice is never empty |
| Availability.Sweep | availability.py:23-104 | an empty list writes nothing; otherwise the run's messages are the per-entry messages in order and the written list is what is kept of each entry |
| Availability.SweepList | availability.py:29-101 | the loop keeps, in order, what each entry leaves in the list and sends, in order, what each entry sends |
| Availability.SweepEntry | availability.py:31-101 | one entry adds what is kept of it and what it sends |
| Availability.CheckAvailabilityJob | availability.py:15-104 | the sweep with each entry judged by Verdict |
| Availability.ApiDecidesFirst | availability.py:41-66 | the catalogue is not consulted when the API path did not raise |
| Availability.NoApiVerdict | availability.py:45-51 | with no API configured an entry is never available |
| Availability.NoneAvailable | availability.py:90-92 | with nothing available, every entry is kept as "checking" and nothing is sent |
| Availability.NoApiNeverAvailable | availability.py:41-92 | with no API configured a run sends nothing and keeps each entry as "checking" |
| Availability.EntryFate | availability.py:69-97 | an available entry is dropped, with a notice unless already notified; a not-available one is kept as "checking"; one whose check raised is kept unchanged |
| Availability.RemainingAppend | availability.py:29-104 | the written list is built entry by entry, keeping their order |
| Availability.EventsAppend | availability.py:29-104 | the messages are sent entry by entry, in order |
| Availability.RemainingFrom | availability.py:29-104 | the written list is no longer than the input and each kept entry comes from a non-available input entry |
| Availability.AvailableDropped | availability.py:69-104 | the key of an entry judged available is absent from the written list |
| Availability.KeptStable | availability.py:69-97 | what is kept of an entry is kept again unchanged and sends nothing |
| Availability.SecondRunQuiet | availability.py:69-92 | with verdicts unchanged, a second run sends nothing and writes the same list |
| Handlers.UserContext.Messages | handlers.py:48 | an unknown user has no tracked messages |
| Handlers.UserContext.TrackMessage | handlers.py:39-43 | the id goes at the end of that user's list, created if needed; other users are untouched |
| Handlers.UserContext.CleanupMessages | handlers.py:46-54 | a deletion is attempted for each tracked id; the user's list is then empty, and other users are untouched |
| Handlers.ConvertAll | handlers.py:914-918 | one field per piece |
| Handlers.LibOf | handlers.py:905-918 | `lib:` and four colon-free pieces parse to the type and the converted ids |
| Handlers.LibRoundTrip | handlers.py:889-918 | the `lib:` button parses back to its type and both ids |
| Handlers.SeasonOf | handlers.py:985-999 | `season:` and three colon-free pieces parse to the converted ids |
| Handlers.SeasonRoundTrip | handlers.py:936-999 | the `season:` button parses back to both ids and the season |
| Handlers.ConfirmOf | handlers.py:1036-1048 | `confirm:` and four colon-free pieces parse to the type, ids and season field |
| Handlers.ConfirmRoundTrip | handlers.py:962-1048 | the confirm button parses back to the same type, ids and season, with 0 read as None |
| Handlers.ZeroText | handlers.py:1047 | str(season) is "0" exactly for 0 |
| Handlers.MovieFlow | handlers.py:1036-1048 | a movie's `lib:` button and its season-0 confirm button parse back with no season |
| Handlers.ParseDelReq | handlers.py:618-625 | another tag is ignored; a bad tail is a ValueError |
| Handlers.DelReqOf | handlers.py:618-625 | `delreq:` and a colon-free tail parse to int(tail) or the error |
| Handlers.DelReqRoundTrip | handlers.py:618-625 | the cancel button parses to its request id |
| Handlers.DelReqBadTail | handlers.py:621-625 | a non-integer tail gives the error reply |
| Handlers.LibraryName | handlers.py:1070-1072 | the name is that of a library whose id equals the given one, or "Unknown" when no library has that id |
| Handlers.LibraryNameFirst | handlers.py:1070-1072 | the first library with the id gives its name |
| Handlers.LibraryNameUnknown | handlers.py:954-958 | with no library for the id, the name is "Unknown" |
| Handlers.Truncate | handlers.py:178-191 | short text is unchanged; long text is its first n characters then "..." |
| Handlers.TruncateOverview | handlers.py:239-242 | an overview over 100 characters is its first 100 cut at the last space (if any), then "..." |
| Handlers.CountsWithinTotal | handlers.py:127-136 | movie and TV counts add up to at most the total |
| Handlers.StatsPercents | handlers.py:171-172 | the two `count*100//total` percentages add up to at most 100 |
| Backup.Digits | backup.py:34 | a field is printed at its fixed width |
| Backup.DigitsReadBack | backup.py:34 | the printed field is all digits, and a number that fits the width reads back as itself |
| Backup.BackupName | backup.py:34-35 | every backup name starts with "backup_" |
| Backup.DigitsOrder | backup.py:34 | fixed-width digit strings compare as their numbers |
| Backup.NameOrder | backup.py:34-35 | names of valid timestamps compare as the times do, so descending name order is newest first |
| Backup.InsertDesc | backup.py:117 | an insertion step keeps descending order and adds one element |
| Backup.SortDesc | backup.py:117 | `sorted(reverse=True)` is a descending permutation |
| Backup.BackupNamesKeeps | backup.py:116 | the names kept are exactly those of directories starting with "backup_" |
| Backup.ListBackups | backup.py:108-120 | [] on error; otherwise the backup directory names, sorted descending |
| Backup.ToDelete | backup.py:133-136 | nothing when at most keep_last backups exist, else `backups[keep_last:]` |
| Backup.DeletedBy | backup.py:138-141 | removals happen in order and stop at the first failure |
| Backup.DeletedUpTo | backup.py:138-146 | the deleted names are those before the first failing removal |
| Backup.DeletedAll | backup.py:131-141 | with every removal succeeding, exactly `backups[keep_last:]` is deleted |
| Backup.WithoutNamesKeeps | backup.py:140 | removing directories keeps exactly the others |
| Backup.DeletedAreOlder | backup.py:113-136 | every deleted name sorts below every kept one |
| Backup.DeletedTakenEarlier | backup.py:113-136 | a deleted backup was taken no later than any kept one |
| Backup.Basename | backup.py:45-89 | a basename holds no '/' |
| Backup.ExistingNamesSpec | backup.py:43-48 | `backup_info["files"]` lists the basenames of exactly the existing database files |
| Backup.SnapshotKeys | backup.py:43-48 | the new backup holds a file for exactly those names |
| Backup.SnapshotHolds | backup.py:43-47 | each copied file holds the content of its path |
| Backup.RestoredOthers | backup.py:88-98 | files other than the restored paths and their copies are unchanged |
| Backup.RestoredPath | backup.py:88-98 | a file the backup holds is restored and the old content kept as `.pre-restore`; a file it lacks is left alone |
| Backup.Find | backup.py:76 | a backup is found iff an entry has that name |
| Backup.Disk.CreateBackup | backup.py:26-60 | a taken name fails with None; otherwise one backup directory is added, with the snapshot and the file list |
| Backup.CopyExisting | backup.py:43-48 | the copy loop yields the snapshot and the list of copied names |
| Backup.Disk.RestoreBackup | backup.py:63-105 | a missing backup returns False and changes nothing; otherwise the database files are restored in order |
| Backup.Disk.RemoveInOrder | backup.py:138-141 | the removal loop deletes the names up to the first failure |
| Backup.RemoveEach | backup.py:138-141 | rmtree runs over the names in order until one fails; what is left is the listing without the removed names |
| Backup.Disk.CleanupOldBackups | backup.py:123-146 | the deleted backups are `to_delete` up to the first failing removal; other files are unchanged |
| Backup.DatabaseFilesApart | backup.py:20-23 | the two database files have distinct basenames and neither is the other's copy |
| Backup.RestoreDatabaseFiles | backup.py:88-98 | for the real file list, each restored file and its `.pre-restore` copy |
| Backup.SnapshotDatabaseFiles | backup.py:43-48 | for the real file list, each existing file is in the backup |
| HealthCheck.UptimeParts | health_check.py:57-61 | days, hours < 24 and minutes < 60 whose total lies within the minute before the uptime |
| HealthCheck.FormatUptime | health_check.py:62 | the text splits into the days "d", hours "h" and minutes "m" |
| HealthCheck.StatusWord | health_check.py:47 | "healthy" iff healthy, else "unhealthy" |
| HealthCheck.BotHealthStatus.constructor | health_check.py:22-26 | both times start at now, the counters at 0, and the bot is healthy |
| HealthCheck.BotHealthStatus.UpdateActivity | health_check.py:29-31 | only the last-activity time changes |
| HealthCheck.BotHealthStatus.IncrementRequests | health_check.py:33-35 | the request counter goes up by one and nothing else changes |
| HealthCheck.BotHealthStatus.IncrementErrors | health_check.py:37-39 | the error counter goes up by one and nothing else changes |
| HealthCheck.BotHealthStatus.GetStatus | health_check.py:41-54 | the report says "healthy" iff the bot is healthy, with the uptime, the idle time and the counters |
| HealthCheck.HealthRegistry.Get | health_check.py:19-27 | the first call makes and initialises the instance; later calls return the same object |
| HealthCheck.HealthRegistry.GetTwice | health_check.py:19-27 | two calls give the same object, whose start time is set by the first |
| HealthCheck.DoGet | health_check.py:68-79 | 200 with the status for "/health" and "/", 404 with no body otherwise |

## Left out

- Network I/O is not modelled: HTTP sessions, login and cookies, the 401 re-login, TMDB fetches and `get_media_details`. Fetched records are inputs; a failed fetch is `FetchFailed`.
- psycopg2 connections and SQL are not modelled. A query's result is an input: no connection, an exception, or the rows.
- JSON file reads and writes, and the temp-then-rename in `_save_json`, are not modelled. A store replaces its whole list when a boolean says the write succeeded, and a read gives the list or `[]`.
- Telegram calls, async handlers, the job queue, keyboards, captions, message wording and markdown escaping are not modelled: a send or deletion is an attempt recorded as an event.
- telegram_overseerr_bot.py (handler registration and scheduling) and `scheduled_backup` are wiring that calls modelled functions, and are not part of this model.
- Floating point is not modelled. `percentOfEpisodes`, ratings and clock readings are integers; `time.time()` becomes whole seconds passed in, so `int(uptime)` has nothing to truncate.
- `datetime.strptime` and `datetime.now` are abstracted. Date parsing is a function parameter, and the backup time a `Timestamp` value with a four-digit year.
- Python's `repr` of lists and dicts is not modelled. The only uses compare it with letter-only words, which such a repr never equals.
- OverseerrApi.NormalizeStatus: requires a scalar value; lists, dicts and floats are outside what it receives.
- Utils.TitleWithYear: a list or dict title that has a year is None, because its text would be its repr.
- Availability.ApiPath: a truthy tvdbId that is not a number is taken to match no series, so the entry is not available.
- Database: watchlist and log entries are typed records with the fields the bot writes, not arbitrary dicts; the Postgres rows of the queries are inputs.
- Handlers: the button builders take integer ids. A user's flow dict is reduced to its "messages" list (None while the key is absent); the rest of the per-user flow state is left out.
- Config: only the variables named above are parsed; the other `int(_get_env(...))` settings and the ConfigurationError of `validate_config` beyond its message list are left out.
- Backup: `shutil` copies never fail, a failed `rmtree` deletes nothing, and file contents are opaque sequences. The `BACKUP_DIR.mkdir` at import and the logging are left out.
- PyJson.Ge: Python compares two lists item by item; the model treats `>=` between lists as raising. Overseerr and Sonarr report the compared counts as numbers.
- PyJson.Gt: the same for `>`.
- PyText: case mapping, `isdigit` and `int()` cover ASCII only. Unicode digits, such as Arabic-Indic numerals that Python's `int()` accepts, and non-ASCII case folding are not modelled.
- Config.FormatError: the raised message ends in `: ` and the text of the caught exception, which is CPython's wording; the model keeps only "Invalid format for <name>".
- Backup.Digits: `%Y` is printed at four digits; years outside 1000..9999 are excluded by `ValidStamp`, not modelled.
- HealthCheck: the HTTP server thread, `log_message`, headers and the JSON encoding of the report are left out.
- Concurrency is not modelled: the manual check command against the timer sweep, and daemon threads.
