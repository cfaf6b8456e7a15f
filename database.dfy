/**
  database.py: the availability watchlist and the JSON request log.  Each
  JSON file is a stored list plus a count of the saves made to it; a save
  either replaces the whole list or fails and leaves it as it was (the
  temporary file and the rename are not modelled).  A file that cannot be
  read loads as the default [].  The Postgres side of the request log is a
  success flag or the rows a query returned.
*/
module Database {
  import opened Wrappers
  import opened PyText

  // ---------------------------------------------------------------------------
  // List comprehension filters
  // ---------------------------------------------------------------------------

  /** `[x for x in s if p(x)]` */
  function Filter<T>(s: seq<T>, p: T -> bool): (r: seq<T>)
    ensures |r| <= |s|
    ensures forall j | 0 <= j < |r| :: p(r[j]) && r[j] in s
    ensures forall j | 0 <= j < |s| :: p(s[j]) ==> s[j] in r
    ensures |r| == |s| <==> forall j | 0 <= j < |s| :: p(s[j])
    ensures (forall j | 0 <= j < |s| :: p(s[j])) ==> r == s
  {
    if |s| == 0 then []
    else
      var rest := Filter(s[1..], p);
      assert forall j | 1 <= j < |s| :: s[j] == s[1..][j - 1];
      if p(s[0]) then [s[0]] + rest else rest
  }

  /** Filtering a concatenation filters each part in place: the kept elements keep their order. */
  lemma {:induction false} FilterAppend<T>(a: seq<T>, b: seq<T>, p: T -> bool)
    ensures Filter(a + b, p) == Filter(a, p) + Filter(b, p)
  {
    if |a| > 0 {
      assert (a + b)[1..] == a[1..] + b;
      FilterAppend(a[1..], b, p);
    } else {
      assert a + b == b;
    }
  }

  /** Filtering twice with the same test changes nothing more. */
  lemma {:induction false} FilterIdempotent<T>(s: seq<T>, p: T -> bool)
    ensures Filter(Filter(s, p), p) == Filter(s, p)
  {
    if |s| > 0 {
      FilterIdempotent(s[1..], p);
      if p(s[0]) {
        assert ([s[0]] + Filter(s[1..], p))[1..] == Filter(s[1..], p);
      }
    }
  }

  // ---------------------------------------------------------------------------
  // Availability watchlist
  // ---------------------------------------------------------------------------

  /** One watchlist entry, as add_to_watchlist writes it (plus the id stored later by the confirm step). */
  datatype WatchEntry = WatchEntry(
    mediaId: int,
    mediaType: string,
    season: Option<int>,
    chatId: int,
    title: string,
    libraryName: Option<string>,
    addedAt: string,
    lastKnownStatus: Option<string>,
    confirmationMessageId: Option<int>)

  /** What identifies an entry: the chat is not part of it. */
  datatype MediaKey = MediaKey(mediaId: int, mediaType: string, season: Option<int>)

  function KeyOf(w: WatchEntry): MediaKey {
    MediaKey(w.mediaId, w.mediaType, w.season)
  }

  predicate HasKey(entries: seq<WatchEntry>, k: MediaKey) {
    exists j | 0 <= j < |entries| :: KeyOf(entries[j]) == k
  }

  /** No two entries share (media_id, media_type, season). */
  predicate UniqueKeys(entries: seq<WatchEntry>) {
    forall i, j | 0 <= i < j < |entries| :: KeyOf(entries[i]) != KeyOf(entries[j])
  }

  /** The entry add_to_watchlist appends: not yet checked, no confirmation message. */
  function NewEntry(mediaId: int, mediaType: string, chatId: int, title: string, libraryName: Option<string>, season: Option<int>, addedAt: string): (w: WatchEntry)
    ensures KeyOf(w) == MediaKey(mediaId, mediaType, season) && w.chatId == chatId
    ensures w.lastKnownStatus.None? && w.confirmationMessageId.None?
  {
    WatchEntry(mediaId, mediaType, season, chatId, title, libraryName, addedAt, None, None)
  }

  /** The list add_to_watchlist saves: unchanged when the key is present, else the entry appended. */
  function AddEntry(entries: seq<WatchEntry>, w: WatchEntry): seq<WatchEntry> {
    if HasKey(entries, KeyOf(w)) then entries else entries + [w]
  }

  /** Adding keeps the keys unique, whatever chat the new entry is for. */
  lemma AddEntryUnique(entries: seq<WatchEntry>, w: WatchEntry)
    requires UniqueKeys(entries)
    ensures UniqueKeys(AddEntry(entries, w))
  {
    if !HasKey(entries, KeyOf(w)) {
      var r := entries + [w];
      forall i, j | 0 <= i < j < |r| ensures KeyOf(r[i]) != KeyOf(r[j]) {
        if j == |entries| {
          assert r[i] == entries[i];
        }
      }
    }
  }

  /** Afterwards the key is present, every earlier entry is still in its place, and adding again changes nothing. */
  lemma AddEntrySpec(entries: seq<WatchEntry>, w: WatchEntry)
    ensures var r := AddEntry(entries, w);
      && HasKey(r, KeyOf(w))
      && entries <= r && |r| <= |entries| + 1
      && AddEntry(r, w) == r
  {
    var r := AddEntry(entries, w);
    if !HasKey(entries, KeyOf(w)) {
      assert KeyOf(r[|entries|]) == KeyOf(w);
    }
  }

  /** The list remove_from_watchlist saves: every entry without the key, in order. */
  function Without(entries: seq<WatchEntry>, k: MediaKey): (r: seq<WatchEntry>)
    ensures !HasKey(r, k)
    ensures |r| < |entries| <==> HasKey(entries, k)
  {
    Filter(entries, (w: WatchEntry) => KeyOf(w) != k)
  }

  /** Removing an entry that was just added (with its key new) gives back the list before. */
  lemma RemoveUndoesAdd(entries: seq<WatchEntry>, w: WatchEntry)
    requires !HasKey(entries, KeyOf(w))
    ensures Without(AddEntry(entries, w), KeyOf(w)) == entries
  {
    var p := (x: WatchEntry) => KeyOf(x) != KeyOf(w);
    FilterAppend(entries, [w], p);
    assert Filter(entries, p) == entries;
    assert Filter([w], p) == [];
  }

  /** Removing twice is the same as removing once. */
  lemma RemoveTwice(entries: seq<WatchEntry>, k: MediaKey)
    ensures Without(Without(entries, k), k) == Without(entries, k)
  {
    FilterIdempotent(entries, (w: WatchEntry) => KeyOf(w) != k);
  }

  /** The confirm step: the first entry for the media id, type and chat gets the message id. */
  function WithConfirmation(entries: seq<WatchEntry>, mediaId: int, mediaType: string, chatId: int, messageId: int): (r: seq<WatchEntry>)
    ensures |r| == |entries|
    ensures forall j | 0 <= j < |entries| :: KeyOf(r[j]) == KeyOf(entries[j]) && r[j].chatId == entries[j].chatId
  {
    if |entries| == 0 then []
    else
      var w := entries[0];
      if w.mediaId == mediaId && w.mediaType == mediaType && w.chatId == chatId then
        [w.(confirmationMessageId := Some(messageId))] + entries[1..]
      else
        var rest := WithConfirmation(entries[1..], mediaId, mediaType, chatId, messageId);
        assert forall j | 1 <= j < |entries| :: entries[j] == entries[1..][j - 1];
        [w] + rest
  }

  /** Only the first matching entry changes, and only in its message id. */
  lemma {:induction false} WithConfirmationFirst(entries: seq<WatchEntry>, mediaId: int, mediaType: string, chatId: int, messageId: int, i: nat)
    requires i < |entries|
    requires forall j | 0 <= j < i :: !(entries[j].mediaId == mediaId && entries[j].mediaType == mediaType && entries[j].chatId == chatId)
    requires entries[i].mediaId == mediaId && entries[i].mediaType == mediaType && entries[i].chatId == chatId
    ensures var r := WithConfirmation(entries, mediaId, mediaType, chatId, messageId);
      && r[i] == entries[i].(confirmationMessageId := Some(messageId))
      && forall j | 0 <= j < |entries| && j != i :: r[j] == entries[j]
  {
    if i > 0 {
      WithConfirmationFirst(entries[1..], mediaId, mediaType, chatId, messageId, i - 1);
    }
  }

  /** The watchlist JSON file. */
  class WatchStore {
    var entries: seq<WatchEntry>
    var saves: nat

    constructor (initial: seq<WatchEntry>)
      ensures entries == initial && saves == 0
    {
      entries := initial;
      saves := 0;
    }

    /** _load_json(AVAILABILITY_WATCH_FILE, []): get_watchlist. */
    method Load(readable: bool) returns (r: seq<WatchEntry>)
      ensures r == if readable then entries else []
    {
      r := if readable then entries else [];
    }

    /** _save_json: the whole list is replaced, or nothing changes when the write fails. */
    method Save(list: seq<WatchEntry>, saveOk: bool) returns (ok: bool)
      modifies this
      ensures ok == saveOk && saves == old(saves) + 1
      ensures entries == if saveOk then list else old(entries)
    {
      saves := saves + 1;
      if saveOk {
        entries := list;
      }
      ok := saveOk;
    }

    /**
      add_to_watchlist: an entry with the same (media_id, media_type, season)
      already there means True and no write; otherwise the new entry is appended
      and the result is whether the save succeeded.
    */
    method Add(mediaId: int, mediaType: string, chatId: int, title: string, libraryName: Option<string>, season: Option<int>,
               addedAt: string, readable: bool, saveOk: bool) returns (ok: bool)
      modifies this
      ensures var list := if readable then old(entries) else [];
        var w := NewEntry(mediaId, mediaType, chatId, title, libraryName, season, addedAt);
        if HasKey(list, KeyOf(w)) then ok && entries == old(entries) && saves == old(saves)
        else ok == saveOk && saves == old(saves) + 1 && entries == (if saveOk then AddEntry(list, w) else old(entries))
    {
      var list := Load(readable);
      var w := NewEntry(mediaId, mediaType, chatId, title, libraryName, season, addedAt);
      var found := false;
      var i := 0;
      while i < |list|
        invariant 0 <= i <= |list|
        invariant found <==> HasKey(list[..i], KeyOf(w))
      {
        var v := list[i];
        if v.mediaId == mediaId && v.mediaType == mediaType && v.season == season {
          found := true;
        }
        assert list[..i + 1] == list[..i] + [v];
        i := i + 1;
      }
      assert list[..i] == list;
      if found {
        return true;
      }
      ok := Save(list + [w], saveOk);
    }

    /** update_watchlist: the whole list is written back. */
    method Update(list: seq<WatchEntry>, saveOk: bool) returns (ok: bool)
      modifies this
      ensures ok == saveOk && saves == old(saves) + 1
      ensures entries == if saveOk then list else old(entries)
    {
      ok := Save(list, saveOk);
    }

    /** remove_from_watchlist: with no entry for the key nothing is written and the result is False. */
    method Remove(mediaId: int, mediaType: string, season: Option<int>, readable: bool, saveOk: bool) returns (ok: bool)
      modifies this
      ensures var list := if readable then old(entries) else [];
        var k := MediaKey(mediaId, mediaType, season);
        if HasKey(list, k) then ok == saveOk && saves == old(saves) + 1 && entries == (if saveOk then Without(list, k) else old(entries))
        else !ok && entries == old(entries) && saves == old(saves)
    {
      var list := Load(readable);
      var kept := Without(list, MediaKey(mediaId, mediaType, season));
      if |kept| < |list| {
        ok := Save(kept, saveOk);
      } else {
        ok := false;
      }
    }

    /** The confirm step's write: the first entry for the media and chat gets the message id, then the list is saved. */
    method SetConfirmation(mediaId: int, mediaType: string, chatId: int, messageId: int, readable: bool, saveOk: bool) returns (ok: bool)
      modifies this
      ensures var list := if readable then old(entries) else [];
        ok == saveOk && saves == old(saves) + 1
        && entries == (if saveOk then WithConfirmation(list, mediaId, mediaType, chatId, messageId) else old(entries))
    {
      var list := Load(readable);
      ok := Save(WithConfirmation(list, mediaId, mediaType, chatId, messageId), saveOk);
    }
  }

  /** Setting a message id keeps the keys unique. */
  lemma WithConfirmationUnique(entries: seq<WatchEntry>, mediaId: int, mediaType: string, chatId: int, messageId: int)
    requires UniqueKeys(entries)
    ensures UniqueKeys(WithConfirmation(entries, mediaId, mediaType, chatId, messageId))
  {
  }

  // ---------------------------------------------------------------------------
  // Request log
  // ---------------------------------------------------------------------------

  /** One log entry, as log_request writes it. */
  datatype RequestEntry = RequestEntry(
    user: string,
    title: string,
    mediaType: string,
    season: Option<int>,
    library: Option<string>,
    timestamp: string,
    overseerrRequestId: Option<int>,
    tmdbId: Option<int>)

  /** The requests JSON file. */
  class RequestLog {
    var logs: seq<RequestEntry>
    var saves: nat

    constructor (initial: seq<RequestEntry>)
      ensures logs == initial && saves == 0
    {
      logs := initial;
      saves := 0;
    }

    /**
      log_request: `pgOk` says whether the Postgres insert went through; the
      entry is always appended to the JSON log, and the result is pg or json success.
    */
    method LogRequest(entry: RequestEntry, pgOk: bool, readable: bool, saveOk: bool) returns (ok: bool)
      modifies this
      ensures ok == (pgOk || saveOk) && saves == old(saves) + 1
      ensures logs == if saveOk then (if readable then old(logs) else []) + [entry] else old(logs)
    {
      var list := if readable then logs else [];
      list := list + [entry];
      saves := saves + 1;
      if saveOk {
        logs := list;
      }
      ok := pgOk || saveOk;
    }
  }

  /** `[r for r in logs if r["user"] == user][-limit:]` */
  function UserRequestsFallback(logs: seq<RequestEntry>, user: string, limit: int): seq<RequestEntry> {
    SliceFrom(Filter(logs, (e: RequestEntry) => e.user == user), -limit)
  }

  /**
    The fallback gives the user's own entries, the last `limit` of them in log
    order; a limit of 0 slices from -0 == 0 and so gives them all.
  */
  lemma UserRequestsFallbackSpec(logs: seq<RequestEntry>, user: string, limit: int)
    ensures var mine := Filter(logs, (e: RequestEntry) => e.user == user);
      var r := UserRequestsFallback(logs, user, limit);
      && (forall j | 0 <= j < |r| :: r[j].user == user && r[j] in logs)
      && r == mine[|mine| - |r|..]
      && (limit > 0 ==> |r| == if limit <= |mine| then limit else |mine|)
      && (limit == 0 ==> r == mine)
  {
  }

  /** `logs[-limit:] if limit else logs` */
  function AllRequestsFallback(logs: seq<RequestEntry>, limit: Option<int>): (r: seq<RequestEntry>)
    ensures |r| <= |logs| && r == logs[|logs| - |r|..]
    ensures limit.None? || limit == Some(0) ==> r == logs
    ensures limit.Some? && limit.value > 0 ==> |r| == if limit.value <= |logs| then limit.value else |logs|
  {
    if limit.None? || limit.value == 0 then logs else SliceFrom(logs, -limit.value)
  }

  /** What the Postgres query gave: no connection, an exception, or the rows. */
  datatype PgRead = NoConnection | QueryFailed | Rows(rows: seq<RequestEntry>)

  /** get_user_requests: the query's rows when it ran, else the JSON fallback. */
  function UserRequests(pg: PgRead, logs: seq<RequestEntry>, user: string, limit: int): (r: seq<RequestEntry>)
    ensures pg.Rows? ==> r == pg.rows
    ensures !pg.Rows? ==> forall j | 0 <= j < |r| :: r[j].user == user
    ensures !pg.Rows? ==> r == UserRequestsFallback(logs, user, limit)
  {
    if pg.Rows? then pg.rows
    else
      UserRequestsFallbackSpec(logs, user, limit);
      UserRequestsFallback(logs, user, limit)
  }

  /** get_all_requests: the query's rows when it ran, else the JSON fallback. */
  function AllRequests(pg: PgRead, logs: seq<RequestEntry>, limit: Option<int>): (r: seq<RequestEntry>)
    ensures pg.Rows? ==> r == pg.rows
    ensures !pg.Rows? ==> r == AllRequestsFallback(logs, limit)
  {
    if pg.Rows? then pg.rows else AllRequestsFallback(logs, limit)
  }
}
