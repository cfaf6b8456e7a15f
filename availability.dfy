/**
  availability.py: one run of check_availability_job over the watchlist.
  What the run reads from outside is an input: the Radarr/Sonarr lists (no
  client means no API is configured), the Overseerr details record read for
  a show's tvdb id, the catalog record behind get_canonical_status, and
  whether each Telegram send succeeds.  The messages the run sends are
  returned as a list of events.
*/
module Availability {
  import opened Wrappers
  import opened PyText
  import opened PyJson
  import OverseerrApi
  import RadarrSonarr
  import opened Database

  /** What a configured Radarr/Sonarr client reads. */
  datatype ApiSide = ApiSide(
    movies: Fetched<Json>,                 // GET /movie
    series: Fetched<Json>,                 // GET /series
    episodesOf: Json -> Fetched<Json>)     // GET /episode for a series id

  datatype Sources = Sources(
    api: Option<ApiSide>,                  // get_radarr_sonarr_api(): None when not configured
    details: int -> Fetched<Json>,         // get_details(media_id, "tv"); FetchFailed raises
    catalog: int -> Fetched<Json>,         // the record get_canonical_status fetches for a TMDb id
    sendOk: WatchEntry -> bool)            // whether send_message to the entry's chat succeeds

  /** The messages a run sends. */
  datatype Event = Notify(chatId: int, title: string) | DeleteMessage(chatId: int, messageId: int)

  /** The Radarr/Sonarr path: Err when it raised, else the truth value of is_now_available. */
  function ApiPath(api: Option<ApiSide>, details: int -> Fetched<Json>, k: MediaKey): Result<bool> {
    match api
    case None => Ok(false)
    case Some(side) =>
      if k.mediaType == "movie" then
        Ok(Truthy(RadarrSonarr.CheckMovie(side.movies, k.mediaId).available))
      else if k.mediaType == "tv" then
        match details(k.mediaId)
        case FetchFailed => Err(RequestError)
        case Fetched(record) =>
          if !record.JObj? then Err(AttributeError)
          else
            var ids := GetOr(record, "externalIds", JObj([]));
            if !ids.JObj? then Err(AttributeError)
            else
              var tvdb := Get(ids, "tvdbId");
              if !Truthy(tvdb) then Ok(false)
              else
                match NumValue(tvdb)
                case Some(id) => Ok(Truthy(RadarrSonarr.CheckTv(side.series, side.episodesOf, id, k.season).available))
                case None => Ok(false)
      else Ok(false)
  }

  /** The seasons passed to get_canonical_status: the entry's season for a show, else none. */
  function Requested(k: MediaKey): seq<int> {
    if k.mediaType == "tv" && k.season.Some? then [k.season.value] else []
  }

  /** The fallback: available iff the canonical status is AVAILABLE or PARTIALLY_AVAILABLE. */
  function CatalogPath(src: Sources, k: MediaKey): Result<bool> {
    match OverseerrApi.CanonicalStatusOfFetch(src.catalog(k.mediaId), Requested(k))
    case Err(e) => Err(e)
    case Ok(v) => Ok(v.status == OverseerrApi.Available || v.status == OverseerrApi.PartiallyAvailable)
  }

  /** The verdict for an entry: the API path, and the catalog only when the API path raised. */
  function Verdict(src: Sources, k: MediaKey): (r: Result<bool>)
    ensures ApiPath(src.api, src.details, k).Ok? ==> r == ApiPath(src.api, src.details, k)
    ensures ApiPath(src.api, src.details, k).Err? ==> r == CatalogPath(src, k)
  {
    match ApiPath(src.api, src.details, k)
    case Ok(b) => Ok(b)
    case Err(_) => CatalogPath(src, k)
  }

  /** A verdict for each entry key: Err when the check raised. */
  type Judge = MediaKey -> Result<bool>

  /** A status under which the user has already been told. */
  predicate AlreadyNotified(w: WatchEntry) {
    w.lastKnownStatus in {Some("AVAILABLE"), Some("PARTIALLY_AVAILABLE"), Some("notified")}
  }

  /** `w.get("title") or w.get("name") or str(media_id)`; entries carry no "name". */
  function TitleOf(w: WatchEntry): (t: string)
    ensures t != ""
  {
    if w.title != "" then w.title else IntToString(w.mediaId)
  }

  /** What the run keeps of one entry: nothing when available, marked "checking" when not, unchanged when its check raised. */
  function Kept(judge: Judge, w: WatchEntry): seq<WatchEntry> {
    match judge(KeyOf(w))
    case Err(_) => [w]
    case Ok(true) => []
    case Ok(false) => [w.(lastKnownStatus := Some("checking"))]
  }

  /** Whether the confirmation message is deleted: the send went through and the stored id is truthy. */
  predicate DeletesConfirmation(sendOk: WatchEntry -> bool, w: WatchEntry) {
    sendOk(w) && w.confirmationMessageId.Some? && w.confirmationMessageId.value != 0
  }

  /** The messages for one entry: a notice on the first available verdict, then the confirmation deleted if the send went through. */
  function Sent(judge: Judge, sendOk: WatchEntry -> bool, w: WatchEntry): seq<Event> {
    if judge(KeyOf(w)) == Ok(true) && !AlreadyNotified(w) then
      [Notify(w.chatId, TitleOf(w))]
        + (if DeletesConfirmation(sendOk, w) then [DeleteMessage(w.chatId, w.confirmationMessageId.value)] else [])
    else []
  }

  /** The list written back. */
  function Remaining(judge: Judge, list: seq<WatchEntry>): seq<WatchEntry> {
    if |list| == 0 then [] else Remaining(judge, list[..|list| - 1]) + Kept(judge, list[|list| - 1])
  }

  /** The messages sent for the entries, in order. */
  function Events(judge: Judge, sendOk: WatchEntry -> bool, list: seq<WatchEntry>): seq<Event> {
    if |list| == 0 then [] else Events(judge, sendOk, list[..|list| - 1]) + Sent(judge, sendOk, list[|list| - 1])
  }

  /** The loop of check_availability_job with the verdicts given: an empty watchlist returns without a write. */
  method Sweep(store: WatchStore, judge: Judge, sendOk: WatchEntry -> bool, readable: bool, saveOk: bool) returns (events: seq<Event>)
    modifies store
    ensures var list := if readable then old(store.entries) else [];
      if list == [] then events == [] && store.entries == old(store.entries) && store.saves == old(store.saves)
      else
        && events == Events(judge, sendOk, list)
        && store.saves == old(store.saves) + 1
        && store.entries == if saveOk then Remaining(judge, list) else old(store.entries)
  {
    var list := store.Load(readable);
    if list == [] {
      return [];
    }
    var remaining;
    remaining, events := SweepList(judge, sendOk, list);
    var _ := store.Update(remaining, saveOk);
  }

  /** The loop over the entries: what is kept and what is sent. */
  method SweepList(judge: Judge, sendOk: WatchEntry -> bool, list: seq<WatchEntry>) returns (remaining: seq<WatchEntry>, events: seq<Event>)
    ensures remaining == Remaining(judge, list) && events == Events(judge, sendOk, list)
  {
    remaining, events := [], [];
    var i := 0;
    while i < |list|
      invariant 0 <= i <= |list|
      invariant remaining == Remaining(judge, list[..i]) && events == Events(judge, sendOk, list[..i])
    {
      remaining, events := SweepEntry(judge, sendOk, list[i], remaining, events);
      assert list[..i + 1][..i] == list[..i];
      i := i + 1;
    }
    assert list[..i] == list;
  }

  /** The loop body for one entry: what it keeps and what it sends. */
  method SweepEntry(judge: Judge, sendOk: WatchEntry -> bool, w: WatchEntry, remaining: seq<WatchEntry>, events: seq<Event>)
    returns (remaining': seq<WatchEntry>, events': seq<Event>)
    ensures remaining' == remaining + Kept(judge, w)
    ensures events' == events + Sent(judge, sendOk, w)
  {
    remaining', events' := remaining, events;
    match judge(KeyOf(w)) {
      case Err(_) =>
        remaining' := remaining' + [w];
      case Ok(true) =>
        if !AlreadyNotified(w) {
          events' := events' + [Notify(w.chatId, TitleOf(w))];
          if sendOk(w) && w.confirmationMessageId.Some? && w.confirmationMessageId.value != 0 {
            events' := events' + [DeleteMessage(w.chatId, w.confirmationMessageId.value)];
          }
        }
      case Ok(false) =>
        remaining' := remaining' + [w.(lastKnownStatus := Some("checking"))];
    }
  }

  /** check_availability_job: the sweep with each entry judged by Verdict and the sends of `src`. */
  method CheckAvailabilityJob(store: WatchStore, src: Sources, readable: bool, saveOk: bool) returns (events: seq<Event>)
    modifies store
    ensures var list := if readable then old(store.entries) else [];
      var judge := (k: MediaKey) => Verdict(src, k);
      if list == [] then events == [] && store.entries == old(store.entries) && store.saves == old(store.saves)
      else
        && events == Events(judge, src.sendOk, list)
        && store.saves == old(store.saves) + 1
        && store.entries == if saveOk then Remaining(judge, list) else old(store.entries)
  {
    events := Sweep(store, (k: MediaKey) => Verdict(src, k), src.sendOk, readable, saveOk);
  }

  // ---------------------------------------------------------------------------
  // Properties of a run
  // ---------------------------------------------------------------------------

  /** The catalog is consulted only when the API path raised. */
  lemma ApiDecidesFirst(src: Sources, k: MediaKey, catalog: int -> Fetched<Json>)
    requires ApiPath(src.api, src.details, k).Ok?
    ensures Verdict(src.(catalog := catalog), k) == Verdict(src, k) == ApiPath(src.api, src.details, k)
  {
  }

  /** With no API configured, no verdict is available, whatever the catalog says. */
  lemma NoApiVerdict(src: Sources, k: MediaKey)
    requires src.api.None?
    ensures Verdict(src, k) == Ok(false)
  {
  }

  /** When no entry is available, every one is kept as "checking" and nothing is sent. */
  lemma {:induction false} NoneAvailable(judge: Judge, sendOk: WatchEntry -> bool, list: seq<WatchEntry>)
    requires forall j | 0 <= j < |list| :: judge(KeyOf(list[j])) == Ok(false)
    ensures Events(judge, sendOk, list) == []
    ensures |Remaining(judge, list)| == |list|
    ensures forall j | 0 <= j < |list| :: Remaining(judge, list)[j] == list[j].(lastKnownStatus := Some("checking"))
  {
    if |list| > 0 {
      NoneAvailable(judge, sendOk, list[..|list| - 1]);
    }
  }

  /** With no API configured, a run keeps every entry as "checking" and sends nothing. */
  lemma NoApiNeverAvailable(src: Sources, list: seq<WatchEntry>)
    requires src.api.None?
    ensures var judge := (k: MediaKey) => Verdict(src, k);
      && Events(judge, src.sendOk, list) == []
      && |Remaining(judge, list)| == |list|
      && forall j | 0 <= j < |list| :: Remaining(judge, list)[j] == list[j].(lastKnownStatus := Some("checking"))
  {
    var judge := (k: MediaKey) => Verdict(src, k);
    forall j | 0 <= j < |list| ensures judge(KeyOf(list[j])) == Ok(false) {
      NoApiVerdict(src, KeyOf(list[j]));
    }
    NoneAvailable(judge, src.sendOk, list);
  }

  /**
    The fate of one entry: an available one is dropped, and notified unless
    it was already; a not-available one is kept as "checking" with its other
    fields unchanged; one whose check raised is kept as it was.
  */
  lemma EntryFate(judge: Judge, sendOk: WatchEntry -> bool, w: WatchEntry)
    ensures judge(KeyOf(w)) == Ok(true) ==>
      Kept(judge, w) == [] && (|Sent(judge, sendOk, w)| > 0 <==> !AlreadyNotified(w))
    ensures judge(KeyOf(w)) == Ok(false) ==>
      Kept(judge, w) == [w.(lastKnownStatus := Some("checking"))] && Sent(judge, sendOk, w) == []
    ensures judge(KeyOf(w)).Err? ==> Kept(judge, w) == [w] && Sent(judge, sendOk, w) == []
    ensures |Sent(judge, sendOk, w)| > 0 ==> Sent(judge, sendOk, w)[0] == Notify(w.chatId, TitleOf(w))
  {
  }

  /** The written list splits over a concatenation: the kept entries stay in their original order. */
  lemma {:induction false} RemainingAppend(judge: Judge, a: seq<WatchEntry>, b: seq<WatchEntry>)
    ensures Remaining(judge, a + b) == Remaining(judge, a) + Remaining(judge, b)
  {
    if |b| > 0 {
      var b' := b[..|b| - 1];
      assert (a + b)[..|a + b| - 1] == a + b';
      assert (a + b)[|a + b| - 1] == b[|b| - 1];
      RemainingAppend(judge, a, b');
    } else {
      assert a + b == a;
    }
  }

  /** The messages split over a concatenation, in order. */
  lemma {:induction false} EventsAppend(judge: Judge, sendOk: WatchEntry -> bool, a: seq<WatchEntry>, b: seq<WatchEntry>)
    ensures Events(judge, sendOk, a + b) == Events(judge, sendOk, a) + Events(judge, sendOk, b)
  {
    if |b| > 0 {
      var b' := b[..|b| - 1];
      assert (a + b)[..|a + b| - 1] == a + b';
      assert (a + b)[|a + b| - 1] == b[|b| - 1];
      EventsAppend(judge, sendOk, a, b');
    } else {
      assert a + b == a;
    }
  }

  /** An entry that the run keeps: its own, or its own marked "checking", for an entry not judged available. */
  predicate KeptFrom(judge: Judge, r: WatchEntry, w: WatchEntry) {
    || (judge(KeyOf(w)).Err? && r == w)
    || (judge(KeyOf(w)) == Ok(false) && r == w.(lastKnownStatus := Some("checking")))
  }

  /** The written list is no longer than the input, and each kept entry comes from an input entry not judged available. */
  lemma {:induction false} RemainingFrom(judge: Judge, list: seq<WatchEntry>)
    ensures |Remaining(judge, list)| <= |list|
    ensures forall i | 0 <= i < |Remaining(judge, list)| :: exists j | 0 <= j < |list| :: KeptFrom(judge, Remaining(judge, list)[i], list[j])
  {
    if |list| > 0 {
      var front := list[..|list| - 1];
      RemainingFrom(judge, front);
      var r := Remaining(judge, list);
      forall i | 0 <= i < |r| ensures exists j | 0 <= j < |list| :: KeptFrom(judge, r[i], list[j]) {
        if i < |Remaining(judge, front)| {
          var j :| 0 <= j < |front| && KeptFrom(judge, Remaining(judge, front)[i], front[j]);
          assert list[j] == front[j];
        } else {
          assert KeptFrom(judge, r[i], list[|list| - 1]);
        }
      }
    }
  }

  /** The key of an entry judged available is absent from the written list: every entry with that key is judged the same and dropped. */
  lemma AvailableDropped(judge: Judge, list: seq<WatchEntry>, j: nat)
    requires j < |list| && judge(KeyOf(list[j])) == Ok(true)
    ensures !HasKey(Remaining(judge, list), KeyOf(list[j]))
  {
    RemainingFrom(judge, list);
    var r := Remaining(judge, list);
    forall i | 0 <= i < |r| ensures KeyOf(r[i]) != KeyOf(list[j]) {
      var m :| 0 <= m < |list| && KeptFrom(judge, r[i], list[m]);
      assert KeyOf(r[i]) == KeyOf(list[m]);
    }
  }

  /** What is kept of an entry is kept again, unchanged, by a second run, and sends nothing. */
  lemma KeptStable(judge: Judge, sendOk: WatchEntry -> bool, w: WatchEntry)
    ensures Remaining(judge, Kept(judge, w)) == Kept(judge, w)
    ensures Events(judge, sendOk, Kept(judge, w)) == []
  {
    var k := Kept(judge, w);
    if |k| == 1 {
      assert k[..0] == [];
      assert KeyOf(k[0]) == KeyOf(w);
    }
  }

  /** With the verdicts unchanged, a second run sends nothing and writes the same list. */
  lemma {:induction false} SecondRunQuiet(judge: Judge, sendOk: WatchEntry -> bool, list: seq<WatchEntry>)
    ensures Remaining(judge, Remaining(judge, list)) == Remaining(judge, list)
    ensures Events(judge, sendOk, Remaining(judge, list)) == []
  {
    if |list| > 0 {
      var front := list[..|list| - 1];
      var w := list[|list| - 1];
      SecondRunQuiet(judge, sendOk, front);
      RemainingAppend(judge, Remaining(judge, front), Kept(judge, w));
      EventsAppend(judge, sendOk, Remaining(judge, front), Kept(judge, w));
      KeptStable(judge, sendOk, w);
    }
  }
}
