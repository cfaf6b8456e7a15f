/**
  handlers.py: the per-user message tracking, the callback strings the
  inline buttons carry and their parsing, the library-name lookup, and the
  text shortening and percentages of the replies.  Telegram calls are left
  out; a deletion is an attempt that may fail.
*/
module Handlers {
  import opened Wrappers
  import opened PyText
  import opened Config
  import opened Database

  // ---------------------------------------------------------------------------
  // track_message / cleanup_messages
  // ---------------------------------------------------------------------------

  /** user_context: per user, the "messages" list if it has been set. */
  class UserContext {
    var users: map<int, Option<seq<int>>>

    constructor ()
      ensures users == map[]
    {
      users := map[];
    }

    /** The tracked ids of a user: the "messages" list, or [] when there is none. */
    function Messages(userId: int): (r: seq<int>)
      reads this
      ensures userId !in users ==> r == []
    {
      if userId in users && users[userId].Some? then users[userId].value else []
    }

    /** track_message: the id goes at the end of that user's list, created if needed; other users are untouched. */
    method TrackMessage(userId: int, messageId: int)
      modifies this
      ensures users == old(users)[userId := Some(old(Messages(userId)) + [messageId])]
      ensures Messages(userId) == old(Messages(userId)) + [messageId]
      ensures forall u | u != userId :: Messages(u) == old(Messages(u))
    {
      if userId !in users {
        users := users[userId := None];
      }
      var current := if users[userId].Some? then users[userId].value else [];
      users := users[userId := Some(current + [messageId])];
    }

    /**
      cleanup_messages: a deletion is attempted for every tracked id (failures
      are ignored), then a known user's list is emptied; an unknown user stays unknown.
    */
    method CleanupMessages(chatId: int, userId: int) returns (attempted: seq<int>)
      modifies this
      ensures attempted == old(Messages(userId))
      ensures userId in old(users) ==> users == old(users)[userId := Some([])]
      ensures userId !in old(users) ==> users == old(users)
      ensures Messages(userId) == []
      ensures forall u | u != userId :: Messages(u) == old(Messages(u))
    {
      attempted := [];
      var tracked := Messages(userId);
      var i := 0;
      while i < |tracked|
        invariant 0 <= i <= |tracked|
        invariant attempted == tracked[..i]
      {
        attempted := attempted + [tracked[i]];
        i := i + 1;
      }
      assert tracked[..i] == tracked;
      if userId in users {
        users := users[userId := Some([])];
      }
    }
  }

  // ---------------------------------------------------------------------------
  // Callback strings
  // ---------------------------------------------------------------------------

  /** A callback field after the `try: int(...) except: pass` step: an int, the text int() refused, or None. */
  datatype Field = Num(n: int) | Text(s: string) | NoneValue

  /** The fields converted in order; the first int() that fails leaves it and the rest as text. */
  function ConvertAll(texts: seq<string>): (r: seq<Field>)
    ensures |r| == |texts|
  {
    if |texts| == 0 then []
    else
      match ParseInt(texts[0])
      case None => AllText(texts)
      case Some(n) => [Num(n)] + ConvertAll(texts[1..])
  }

  /** Every field left as the text int() refused. */
  function AllText(texts: seq<string>): (r: seq<Field>)
    ensures |r| == |texts| && forall j | 0 <= j < |texts| :: r[j] == Text(texts[j])
  {
    seq(|texts|, j requires 0 <= j < |texts| => Text(texts[j]))
  }

  /** A callback string: the pieces joined with ':'. */
  lemma JoinTag(tag: string, rest: seq<string>)
    requires |rest| >= 1
    ensures StartsWith(Join([tag] + rest, ':'), tag + [':'])
  {
    var parts := [tag] + rest;
    assert parts[1..] == rest;
    assert Join(parts, ':') == tag + [':'] + Join(rest, ':');
  }

  /** The string of an int has no ':' and int() reads it back. */
  lemma IdText(n: int)
    ensures ':' !in IntToString(n) && ParseInt(IntToString(n)) == Some(n)
  {
    ParseIntOfIntToString(n);
  }

  /** `lib:{media_type}:{media_id}:{lib_id}` (ask_library). */
  function LibData(mediaType: string, mediaId: int, libId: int): string {
    Join(["lib", mediaType, IntToString(mediaId), IntToString(libId)], ':')
  }

  /** library_handler's parse: nothing unless the tag is `lib:` and there are four pieces. */
  function ParseLib(data: string): Option<(string, Field, Field)> {
    if !StartsWith(data, "lib:") then None
    else
      var parts := SplitN(data, ':', 3);
      if |parts| < 4 then None
      else
        var ids := ConvertAll([parts[2], parts[3]]);
        Some((parts[1], ids[0], ids[1]))
  }

  /** Two int() successes convert both fields. */
  lemma ConvertTwo(a: string, b: string, x: int, y: int)
    requires ParseInt(a) == Some(x) && ParseInt(b) == Some(y)
    ensures ConvertAll([a, b]) == [Num(x), Num(y)]
  {
    assert [a, b][1..] == [b] && [b][1..] == [];
    ConvertHead([b], y);
    assert ConvertAll([b]) == [Num(y)];
    ConvertHead([a, b], x);
    PairDisplay(Num(x), Num(y));
  }

  lemma PairDisplay(p: Field, q: Field)
    ensures [p] + [q] == [p, q]
  {
  }

  /** A field int() accepts becomes a number and the rest are converted in turn. */
  lemma ConvertHead(texts: seq<string>, n: int)
    requires |texts| > 0 && ParseInt(texts[0]) == Some(n)
    ensures ConvertAll(texts) == [Num(n)] + ConvertAll(texts[1..])
  {
  }

  /** Three int() successes convert all three fields. */
  lemma ConvertThree(a: string, b: string, c: string, x: int, y: int, z: int)
    requires ParseInt(a) == Some(x) && ParseInt(b) == Some(y) && ParseInt(c) == Some(z)
    ensures ConvertAll([a, b, c]) == [Num(x), Num(y), Num(z)]
  {
    assert [a, b, c][1..] == [b, c];
    ConvertTwo(b, c, y, z);
    ConvertHead([a, b, c], x);
    TripleDisplay(Num(x), Num(y), Num(z));
  }

  lemma TripleDisplay(p: Field, q: Field, r: Field)
    ensures [p] + [q, r] == [p, q, r]
  {
  }

  /** The `lib:` parse of four pieces without ':'. */
  lemma LibOf(mediaType: string, a: string, b: string)
    requires ':' !in mediaType && ':' !in a && ':' !in b
    ensures ParseLib(Join(["lib", mediaType, a, b], ':'))
      == Some((mediaType, ConvertAll([a, b])[0], ConvertAll([a, b])[1]))
  {
    var parts := ["lib", mediaType, a, b];
    SplitNJoin(parts, ':');
    JoinTag("lib", parts[1..]);
    assert "lib" + [':'] == "lib:";
  }

  /** The `lib:` button parses back to its media type and both ids. */
  lemma LibRoundTrip(mediaType: string, mediaId: int, libId: int)
    requires ':' !in mediaType
    ensures ParseLib(LibData(mediaType, mediaId, libId)) == Some((mediaType, Num(mediaId), Num(libId)))
  {
    IdText(mediaId);
    IdText(libId);
    LibOf(mediaType, IntToString(mediaId), IntToString(libId));
    ConvertTwo(IntToString(mediaId), IntToString(libId), mediaId, libId);
  }

  /** `season:{media_id}:{library_id}:{season_num}` (library_handler). */
  function SeasonData(mediaId: int, libId: int, season: int): string {
    Join(["season", IntToString(mediaId), IntToString(libId), IntToString(season)], ':')
  }

  /** season_handler's parse. */
  function ParseSeason(data: string): Option<(Field, Field, Field)> {
    if !StartsWith(data, "season:") then None
    else
      var parts := SplitN(data, ':', 3);
      if |parts| < 4 then None
      else
        var ids := ConvertAll([parts[1], parts[2], parts[3]]);
        Some((ids[0], ids[1], ids[2]))
  }

  /** The `season:` parse of four pieces without ':'. */
  lemma SeasonOf(a: string, b: string, c: string)
    requires ':' !in a && ':' !in b && ':' !in c
    ensures var ids := ConvertAll([a, b, c]);
      ParseSeason(Join(["season", a, b, c], ':')) == Some((ids[0], ids[1], ids[2]))
  {
    var parts := ["season", a, b, c];
    SplitNJoin(parts, ':');
    JoinTag("season", parts[1..]);
    assert "season" + [':'] == "season:";
  }

  /** The `season:` button parses back to both ids and the season number. */
  lemma SeasonRoundTrip(mediaId: int, libId: int, season: int)
    ensures ParseSeason(SeasonData(mediaId, libId, season)) == Some((Num(mediaId), Num(libId), Num(season)))
  {
    IdText(mediaId);
    IdText(libId);
    IdText(season);
    SeasonOf(IntToString(mediaId), IntToString(libId), IntToString(season));
    ConvertThree(IntToString(mediaId), IntToString(libId), IntToString(season), mediaId, libId, season);
  }

  /** `confirm:{media_type}:{media_id}:{library_id}:{season}`; movies carry season 0. */
  function ConfirmData(mediaType: string, mediaId: int, libId: int, season: int): string {
    Join(["confirm", mediaType, IntToString(mediaId), IntToString(libId), IntToString(season)], ':')
  }

  /** The season field of confirm_handler: "0" is None, any other is int()-converted, but only once both ids converted. */
  function ConfirmSeason(libField: Field, s: string): Field {
    if libField.Text? then Text(s)
    else if s == "0" then NoneValue
    else match ParseInt(s) case Some(n) => Num(n) case None => Text(s)
  }

  /** confirm_handler's parse. */
  function ParseConfirm(data: string): Option<(string, Field, Field, Field)> {
    if !StartsWith(data, "confirm:") then None
    else
      var parts := SplitN(data, ':', 4);
      if |parts| < 5 then None
      else
        var ids := ConvertAll([parts[2], parts[3]]);
        Some((parts[1], ids[0], ids[1], ConfirmSeason(ids[1], parts[4])))
  }

  /** The confirm parse of five pieces without ':'. */
  lemma ConfirmOf(mediaType: string, a: string, b: string, c: string)
    requires ':' !in mediaType && ':' !in a && ':' !in b && ':' !in c
    ensures var ids := ConvertAll([a, b]);
      ParseConfirm(Join(["confirm", mediaType, a, b, c], ':'))
        == Some((mediaType, ids[0], ids[1], ConfirmSeason(ids[1], c)))
  {
    var parts := ["confirm", mediaType, a, b, c];
    SplitNJoin(parts, ':');
    JoinTag("confirm", parts[1..]);
    assert "confirm" + [':'] == "confirm:";
  }

  /** The confirm button parses back to the same type, ids and season, with season 0 read as None. */
  lemma ConfirmRoundTrip(mediaType: string, mediaId: int, libId: int, season: int)
    requires ':' !in mediaType
    ensures ParseConfirm(ConfirmData(mediaType, mediaId, libId, season))
      == Some((mediaType, Num(mediaId), Num(libId), if season == 0 then NoneValue else Num(season)))
  {
    IdText(mediaId);
    IdText(libId);
    IdText(season);
    ZeroText(season);
    ConfirmOf(mediaType, IntToString(mediaId), IntToString(libId), IntToString(season));
    ConvertTwo(IntToString(mediaId), IntToString(libId), mediaId, libId);
  }

  /** str(season) is "0" exactly for 0. */
  lemma ZeroText(n: int)
    ensures IntToString(n) == "0" <==> n == 0
  {
    if IntToString(n) == "0" {
      IdText(n);
      ParseIntOfDigits("0");
      assert DigitsValue("0") == 0 by {
        assert "0"[..0] == "";
      }
    }
  }

  /** The movie flow: the `lib:` button leads to a confirm button for season 0, which parses to no season. */
  lemma MovieFlow(mediaId: int, libId: int)
    ensures ParseLib(LibData("movie", mediaId, libId)) == Some(("movie", Num(mediaId), Num(libId)))
    ensures ParseConfirm(ConfirmData("movie", mediaId, libId, 0)) == Some(("movie", Num(mediaId), Num(libId), NoneValue))
  {
    LibRoundTrip("movie", mediaId, libId);
    ConfirmRoundTrip("movie", mediaId, libId, 0);
  }

  /** `delreq:{req_id}` (my_requests). */
  function DelReqData(requestId: int): string {
    Join(["delreq", IntToString(requestId)], ':')
  }

  /** delete_request_handler's parse: None for another tag, Err for a tail int() refuses. */
  function ParseDelReq(data: string): (r: Option<Result<int>>)
    ensures r.Some? <==> StartsWith(data, "delreq:")
    ensures r.Some? && r.value.Err? ==> r.value.error == ValueError
  {
    if !StartsWith(data, "delreq:") then None
    else
      var parts := Split(data, ':');
      if |parts| < 2 then Some(Err(ValueError))
      else
        match ParseInt(parts[1])
        case None => Some(Err(ValueError))
        case Some(id) => Some(Ok(id))
  }

  /** The cancel-button parse of `delreq:` and a tail without ':'. */
  lemma DelReqOf(tail: string)
    requires ':' !in tail
    ensures ParseDelReq(Join(["delreq", tail], ':'))
      == Some(match ParseInt(tail) case Some(n) => Ok(n) case None => Err(ValueError))
  {
    var data := Join(["delreq", tail], ':');
    SplitJoin(["delreq", tail], ':');
    JoinTag("delreq", [tail]);
    assert "delreq" + [':'] == "delreq:";
    assert Split(data, ':')[1] == tail;
  }

  /** The cancel button parses to the request id. */
  lemma DelReqRoundTrip(requestId: int)
    ensures ParseDelReq(DelReqData(requestId)) == Some(Ok(requestId))
  {
    IdText(requestId);
    DelReqOf(IntToString(requestId));
  }

  /** A tail that is not an integer gives the error reply. */
  lemma DelReqBadTail(tail: string)
    requires ':' !in tail && ParseInt(tail).None?
    ensures ParseDelReq(Join(["delreq", tail], ':')) == Some(Err(ValueError))
  {
    DelReqOf(tail);
  }

  // ---------------------------------------------------------------------------
  // Library names
  // ---------------------------------------------------------------------------

  /** `next((name for name, lid in libs.items() if lid == library_id), "Unknown")` */
  function LibraryName(libs: Libraries, libraryId: Field): (r: string)
    ensures || (exists j | 0 <= j < |libs| :: libraryId == Num(libs[j].1) && r == libs[j].0)
            || (r == "Unknown" && forall j | 0 <= j < |libs| :: libraryId != Num(libs[j].1))
  {
    if |libs| == 0 then "Unknown"
    else if libraryId == Num(libs[0].1) then libs[0].0
    else
      var r := LibraryName(libs[1..], libraryId);
      assert forall j | 1 <= j < |libs| :: libs[j] == libs[1..][j - 1];
      r
  }

  /** The first library with the id gives its name; with none, or an id int() refused, it is "Unknown". */
  lemma {:induction false} LibraryNameFirst(libs: Libraries, libraryId: Field, i: nat)
    requires i < |libs| && libraryId == Num(libs[i].1)
    requires forall j | 0 <= j < i :: libs[j].1 != libs[i].1
    ensures LibraryName(libs, libraryId) == libs[i].0
  {
    if i > 0 {
      LibraryNameFirst(libs[1..], libraryId, i - 1);
    }
  }

  lemma {:induction false} LibraryNameUnknown(libs: Libraries, libraryId: Field)
    requires forall j | 0 <= j < |libs| :: libraryId != Num(libs[j].1)
    ensures LibraryName(libs, libraryId) == "Unknown"
  {
    if |libs| > 0 {
      LibraryNameUnknown(libs[1..], libraryId);
    }
  }

  // ---------------------------------------------------------------------------
  // Shortened text and statistics
  // ---------------------------------------------------------------------------

  /** `s[:n] + "..." if len(s) > n else s`: user names (n = 30) and titles (n = 35) on the stats dashboard. */
  function Truncate(s: string, n: nat): (r: string)
    ensures |s| <= n ==> r == s
    ensures |r| <= n + 3 && StartsWith(r, Take(s, n))
    ensures |s| > n ==> |r| == n + 3 && r[n..] == "..."
  {
    if |s| > n then s[..n] + "..." else s
  }

  const MaxOverview: nat := 100

  /** An overview over 100 characters: its first 100 cut at the last space (if any), then "...". */
  function TruncateOverview(overview: string): (r: string)
    ensures |overview| <= MaxOverview ==> r == overview
    ensures |overview| > MaxOverview ==>
      exists k | 0 <= k <= MaxOverview :: r == overview[..k] + "..."
        && ((k == MaxOverview && ' ' !in overview[..MaxOverview])
            || (k < MaxOverview && overview[k] == ' ' && ' ' !in overview[k + 1..MaxOverview]))
  {
    if |overview| > MaxOverview then
      var head := overview[..MaxOverview];
      var cut := RSplitOnce(head, ' ')[0];
      if ' ' in head then
        var k := |cut|;
        assert head == cut + [' '] + RSplitOnce(head, ' ')[1];
        assert head[..k] == cut && overview[..k] == cut;
        assert overview[k + 1..MaxOverview] == head[k + 1..];
        cut + "..."
      else
        cut + "..."
    else overview
  }

  /** A share as the integer percentage count*100//total, 0 when there is nothing. */
  function Percent(count: nat, total: nat): nat {
    if total > 0 then count * 100 / total else 0
  }

  function MovieCount(logs: seq<RequestEntry>): nat {
    |Filter(logs, (e: RequestEntry) => e.mediaType == "movie")|
  }

  function TvCount(logs: seq<RequestEntry>): nat {
    |Filter(logs, (e: RequestEntry) => e.mediaType == "tv")|
  }

  /** No request is both a movie and a show, so the two counts add up to at most the total. */
  lemma {:induction false} CountsWithinTotal(logs: seq<RequestEntry>)
    ensures MovieCount(logs) + TvCount(logs) <= |logs|
  {
    if |logs| > 0 {
      CountsWithinTotal(logs[1..]);
    }
  }

  /** Floor division rounds down: (x // t) * t <= x. */
  lemma FloorBelow(x: nat, t: nat)
    requires t > 0
    ensures x / t * t <= x
  {
    assert x == x / t * t + x % t;
  }

  /** A product grows with its left factor. */
  lemma MulMono(p: nat, q: nat, t: nat)
    requires p <= q
    ensures p * t <= q * t
  {
    assert q * t == p * t + (q - p) * t;
  }

  /** Two floor quotients by t add up to at most n when the numerators add up to at most n * t. */
  lemma FloorSum(x: nat, y: nat, t: nat, n: nat)
    requires t > 0 && x + y <= n * t
    ensures x / t + y / t <= n
  {
    var p, q := x / t, y / t;
    FloorBelow(x, t);
    FloorBelow(y, t);
    assert (p + q) * t == p * t + q * t;
  }

  /** Floor division keeps a sum within its bound. */
  lemma PercentSum(a: nat, b: nat, t: nat)
    requires a + b <= t
    ensures Percent(a, t) + Percent(b, t) <= 100
  {
    if t > 0 {
      assert a * 100 + b * 100 == (a + b) * 100;
      MulMono(a + b, t, 100);
      assert t * 100 == 100 * t;
      FloorSum(a * 100, b * 100, t, 100);
    }
  }

  /** The stats dashboard's movie and TV percentages add up to at most 100. */
  lemma StatsPercents(logs: seq<RequestEntry>)
    ensures Percent(MovieCount(logs), |logs|) + Percent(TvCount(logs), |logs|) <= 100
  {
    CountsWithinTotal(logs);
    PercentSum(MovieCount(logs), TvCount(logs), |logs|);
  }
}
