/**
  config.py over an explicit environment: `_get_env`, the library list
  parser, `validate_config`, and the ADMIN_USER_IDS and POSTGRES_ENABLED
  settings.  Raised exceptions are Err values.
*/
module Config {
  import opened Wrappers
  import opened PyText

  type Env = map<string, string>

  /** os.getenv(key, default) */
  function GetEnvRaw(env: Env, key: string, default: Option<string>): (r: Option<string>)
    ensures key in env ==> r == Some(env[key])
    ensures key !in env ==> r == default
  {
    if key in env then Some(env[key]) else default
  }

  /** `not os.getenv(key)`: unset or empty. */
  predicate IsSet(env: Env, key: string) {
    key in env && env[key] != ""
  }

  /** _get_env: raises iff the variable is required and its value is missing or empty. */
  function GetEnv(env: Env, key: string, required: bool, default: Option<string>): (r: Result<Option<string>>)
    ensures r.Err? <==> required && GetEnvRaw(env, key, default) in {None, Some("")}
    ensures r.Err? ==> r.error == ConfigurationError("Required environment variable '" + key + "' is not set")
    ensures r.Ok? ==> r.value == GetEnvRaw(env, key, default)
  {
    var value := GetEnvRaw(env, key, default);
    if required && (value.None? || value.value == "") then
      Err(ConfigurationError("Required environment variable '" + key + "' is not set"))
    else Ok(value)
  }

  /** A required variable is accepted exactly when it is set to a non-empty value. */
  lemma GetEnvRequired(env: Env, key: string)
    ensures GetEnv(env, key, true, None).Ok? <==> IsSet(env, key)
    ensures IsSet(env, key) ==> GetEnv(env, key, true, None) == Ok(Some(env[key]))
  {
  }

  // ---------------------------------------------------------------------------
  // _parse_libraries
  // ---------------------------------------------------------------------------

  /** The parsed dict, as its (name, id) pairs in insertion order. */
  type Libraries = seq<(string, int)>

  function Names(libs: Libraries): (r: seq<string>)
    ensures |r| == |libs| && forall j | 0 <= j < |libs| :: r[j] == libs[j].0
  {
    seq(|libs|, j requires 0 <= j < |libs| => libs[j].0)
  }

  /** libraries[name] */
  function LookupId(libs: Libraries, name: string): (r: Option<int>)
    ensures r.None? <==> name !in Names(libs)
  {
    if |libs| == 0 then None
    else if libs[0].0 == name then Some(libs[0].1)
    else
      assert Names(libs) == [libs[0].0] + Names(libs[1..]);
      LookupId(libs[1..], name)
  }

  /** libraries[name] = id: an existing name keeps its place and takes the new id, a new one goes last. */
  function Put(libs: Libraries, name: string, id: int): (r: Libraries)
    ensures name !in Names(libs) ==> r == libs + [(name, id)]
  {
    if |libs| == 0 then [(name, id)]
    else if libs[0].0 == name then [(name, id)] + libs[1..]
    else
      assert Names(libs) == [libs[0].0] + Names(libs[1..]);
      [libs[0]] + Put(libs[1..], name, id)
  }

  /** After the assignment the name reads the new id, every other name what it read before, and the names keep their order. */
  lemma PutSpec(libs: Libraries, name: string, id: int)
    ensures LookupId(Put(libs, name, id), name) == Some(id)
    ensures forall other | other != name :: LookupId(Put(libs, name, id), other) == LookupId(libs, other)
    ensures name in Names(libs) ==> Names(Put(libs, name, id)) == Names(libs)
  {
    PutReadsNew(libs, name, id);
    forall other | other != name
      ensures LookupId(Put(libs, name, id), other) == LookupId(libs, other)
    {
      PutKeepsOther(libs, name, id, other);
    }
    if name in Names(libs) {
      PutKeepsNames(libs, name, id);
    }
  }

  lemma {:induction false} PutReadsNew(libs: Libraries, name: string, id: int)
    ensures LookupId(Put(libs, name, id), name) == Some(id)
  {
    if |libs| > 0 && libs[0].0 != name {
      PutReadsNew(libs[1..], name, id);
    }
  }

  lemma {:induction false} PutKeepsOther(libs: Libraries, name: string, id: int, other: string)
    requires other != name
    ensures LookupId(Put(libs, name, id), other) == LookupId(libs, other)
  {
    if |libs| > 0 && libs[0].0 != name {
      PutKeepsOther(libs[1..], name, id, other);
    }
  }

  lemma PutKeepsNames(libs: Libraries, name: string, id: int)
    requires name in Names(libs)
    ensures Names(Put(libs, name, id)) == Names(libs)
  {
    PutKeepsKeys(libs, name, id);
    var a, b := Names(Put(libs, name, id)), Names(libs);
    assert |a| == |b| && forall j | 0 <= j < |a| :: a[j] == b[j];
  }

  /** Putting a present name changes one id and no key. */
  lemma {:induction false} PutKeepsKeys(libs: Libraries, name: string, id: int)
    requires name in Names(libs)
    ensures |Put(libs, name, id)| == |libs|
    ensures forall j | 0 <= j < |libs| :: Put(libs, name, id)[j].0 == libs[j].0
  {
    if libs[0].0 != name {
      var rest := Put(libs[1..], name, id);
      var whole := Put(libs, name, id);
      assert whole == [libs[0]] + rest;
      assert name in Names(libs[1..]) by {
        assert Names(libs) == [libs[0].0] + Names(libs[1..]);
      }
      PutKeepsKeys(libs[1..], name, id);
      forall j | 0 <= j < |libs| ensures whole[j].0 == libs[j].0 {
        if j > 0 {
          assert whole[j] == rest[j - 1] && libs[j] == libs[1..][j - 1];
        }
      }
    }
  }

  /** What one comma item contributes: nothing, a (name, id) pair, or the exception it raises. */
  type Item = Result<Option<(string, int)>>

  /** One comma item: Ok(None) when blank, else the name before the last ':' and the int() of the rest. */
  function ParseItem(item: string): (r: Item)
    ensures r.Err? ==> r.error == ValueError
    ensures r == Ok(None) <==> Strip(item) == ""
    ensures r.Ok? && r.value.Some? ==> Stripped(r.value.value.0)
  {
    var t := Strip(item);
    if t == "" then Ok(None)
    else
      var parts := RSplitOnce(t, ':');
      if |parts| == 1 then Err(ValueError)
      else
        match ParseInt(parts[1])
        case None => Err(ValueError)
        case Some(id) => Ok(Some((Strip(parts[0]), id)))
  }

  /** ParseItem of every comma item, in order. */
  function ParseItems(items: seq<string>): (r: seq<Item>)
    ensures |r| == |items| && forall j | 0 <= j < |items| :: r[j] == ParseItem(items[j])
  {
    seq(|items|, j requires 0 <= j < |items| => ParseItem(items[j]))
  }

  /** The dict after the first n items have been inserted; the first failing item ends the parse. */
  function Insert(parsed: seq<Item>, n: nat): Result<Libraries>
    requires n <= |parsed|
  {
    if n == 0 then Ok([])
    else
      match Insert(parsed, n - 1)
      case Err(e) => Err(e)
      case Ok(libs) =>
        match parsed[n - 1]
        case Err(e) => Err(e)
        case Ok(None) => Ok(libs)
        case Ok(Some(p)) => Ok(Put(libs, p.0, p.1))
  }

  /** The message of the ConfigurationError that any item's failure turns into. */
  function FormatError(name: string): PyError {
    ConfigurationError("Invalid format for " + name)
  }

  /** _parse_libraries(var) */
  function LibrariesOf(env: Env, name: string): Result<Libraries> {
    var raw := GetEnvRaw(env, name, Some("")).value;
    if raw == "" then Ok([])
    else
      var items := Split(raw, ',');
      match Insert(ParseItems(items), |items|)
      case Err(_) => Err(FormatError(name))
      case Ok(libs) => Ok(libs)
  }

  /** The loop of _parse_libraries, inserting into the dict item by item. */
  method InsertAll(parsed: seq<Item>) returns (r: Result<Libraries>)
    ensures r == Insert(parsed, |parsed|)
  {
    var libs: Libraries := [];
    var i := 0;
    while i < |parsed|
      invariant 0 <= i <= |parsed|
      invariant Insert(parsed, i) == Ok(libs)
    {
      InsertNext(parsed, i, libs);
      match parsed[i] {
        case Err(e) =>
          InsertFailed(parsed, i + 1, |parsed|);
          return Err(e);
        case Ok(None) =>
        case Ok(Some(q)) =>
          libs := Put(libs, q.0, q.1);
      }
      i := i + 1;
    }
    r := Ok(libs);
  }

  /** _parse_libraries: an empty or unset variable gives {}, any failing item the format error. */
  method ParseLibraries(env: Env, name: string) returns (r: Result<Libraries>)
    ensures r == LibrariesOf(env, name)
  {
    var raw := if name in env then env[name] else "";
    if raw == "" {
      return Ok([]);
    }
    var items := Split(raw, ',');
    r := InsertAll(ParseItems(items));
    if r.Err? {
      r := Err(FormatError(name));
    }
  }

  /** One insertion step, from the dict so far. */
  lemma InsertNext(parsed: seq<Item>, n: nat, libs: Libraries)
    requires n < |parsed| && Insert(parsed, n) == Ok(libs)
    ensures parsed[n].Err? ==> Insert(parsed, n + 1) == Err(parsed[n].error)
    ensures parsed[n].Ok? && parsed[n].value.None? ==> Insert(parsed, n + 1) == Ok(libs)
    ensures parsed[n].Ok? && parsed[n].value.Some? ==>
      Insert(parsed, n + 1) == Ok(Put(libs, parsed[n].value.value.0, parsed[n].value.value.1))
  {
  }

  /** Once an item has failed, later items change nothing: the first failure is the result. */
  lemma {:induction false} InsertFailed(parsed: seq<Item>, m: nat, n: nat)
    requires m <= n <= |parsed| && Insert(parsed, m).Err?
    ensures Insert(parsed, n) == Insert(parsed, m)
  {
    if n > m {
      InsertFailed(parsed, m, n - 1);
    }
  }

  /** An unset or empty variable gives no libraries. */
  lemma LibrariesOfUnset(env: Env, name: string)
    requires !IsSet(env, name)
    ensures LibrariesOf(env, name) == Ok([])
  {
  }

  /** The insertion fails iff one of the items does. */
  lemma {:induction false} InsertError(parsed: seq<Item>, n: nat)
    requires n <= |parsed|
    ensures Insert(parsed, n).Err? <==> exists j | 0 <= j < n :: parsed[j].Err?
  {
    if n > 0 {
      InsertError(parsed, n - 1);
    }
  }

  /** A set variable is refused iff some non-blank item has no ':' or a tail that int() refuses. */
  lemma LibrariesOfError(env: Env, name: string)
    requires IsSet(env, name)
    ensures var items := Split(env[name], ',');
      LibrariesOf(env, name).Err? <==> exists j | 0 <= j < |items| :: ParseItem(items[j]).Err?
    ensures LibrariesOf(env, name).Err? ==> LibrariesOf(env, name).error == FormatError(name)
  {
    var items := Split(env[name], ',');
    InsertError(ParseItems(items), |items|);
  }

  /** The id a name ends up with: the one of the last item carrying that name. */
  function LastIdFor(parsed: seq<Item>, name: string): Option<int>
    requires forall j | 0 <= j < |parsed| :: parsed[j].Ok?
  {
    if |parsed| == 0 then None
    else
      var p := parsed[|parsed| - 1].value;
      if p.Some? && p.value.0 == name then Some(p.value.1)
      else LastIdFor(parsed[..|parsed| - 1], name)
  }

  /** A later duplicate name overwrites an earlier one: each name maps to the id of its last item. */
  lemma {:induction false} InsertLookup(parsed: seq<Item>, n: nat, name: string)
    requires n <= |parsed|
    requires forall j | 0 <= j < n :: parsed[j].Ok?
    ensures Insert(parsed, n).Ok? && LookupId(Insert(parsed, n).value, name) == LastIdFor(parsed[..n], name)
  {
    if n > 0 {
      InsertLookup(parsed, n - 1, name);
      assert parsed[..n][..n - 1] == parsed[..n - 1];
      var p := parsed[n - 1];
      if p.value.Some? {
        PutSpec(Insert(parsed, n - 1).value, p.value.value.0, p.value.value.1);
      }
    }
  }

  /** An item `name:digits` with a trimmed name is itself trimmed. */
  lemma ItemStripped(name: string, digits: string)
    requires Stripped(name) && |digits| > 0 && IsDigit(digits[|digits| - 1])
    ensures Stripped(name + ":" + digits)
  {
    var item := name + ":" + digits;
    assert item[|item| - 1] == digits[|digits| - 1];
    assert item[0] == if name != [] then name[0] else ':';
  }

  /** The name is everything before the last ':', so it may contain ':' itself. */
  lemma ParseItemLastColon(name: string, id: int)
    requires Stripped(name)
    ensures ParseItem(name + ":" + IntToString(id)) == Ok(Some((name, id)))
  {
    var digits := IntToString(id);
    ItemStripped(name, digits);
    RSplitOnceAt(name, ':', digits);
    ParseIntOfIntToString(id);
  }

  /** The text `name:id,name:id,...` for a list of pairs. */
  function Render(libs: Libraries): (r: seq<string>)
    ensures |r| == |libs|
    ensures forall j | 0 <= j < |libs| :: r[j] == libs[j].0 + ":" + IntToString(libs[j].1)
  {
    seq(|libs|, j requires 0 <= j < |libs| => libs[j].0 + ":" + IntToString(libs[j].1))
  }

  /** Names the format can carry: trimmed, without ',' and all different. */
  predicate Printable(libs: Libraries) {
    && (forall j | 0 <= j < |libs| :: Stripped(libs[j].0) && ',' !in libs[j].0)
    && (forall i, j | 0 <= i < j < |libs| :: libs[i].0 != libs[j].0)
  }

  /** Every item parsed to its pair. */
  function Pairs(libs: Libraries): (r: seq<Item>)
    ensures |r| == |libs| && forall j | 0 <= j < |libs| :: r[j] == Ok(Some(libs[j]))
  {
    seq(|libs|, j requires 0 <= j < |libs| => Ok(Some(libs[j])))
  }

  /** Each name of a printable list is new when its item is reached. */
  lemma PrintableFresh(libs: Libraries)
    requires Printable(libs)
    ensures forall n | 0 <= n < |libs| :: libs[n].0 !in Names(libs[..n])
  {
    forall n | 0 <= n < |libs| ensures libs[n].0 !in Names(libs[..n]) {
      var ns := Names(libs[..n]);
      assert forall j | 0 <= j < |ns| :: ns[j] == libs[j].0;
    }
  }

  /** Inserting names that are each new keeps them in order. */
  lemma {:induction false} InsertPairs(libs: Libraries, n: nat)
    requires n <= |libs|
    requires forall k | 0 <= k < n :: libs[k].0 !in Names(libs[..k])
    ensures Insert(Pairs(libs), n) == Ok(libs[..n])
  {
    if n > 0 {
      var before := libs[..n - 1];
      InsertPairs(libs, n - 1);
      assert libs[n - 1].0 !in Names(before);
      assert Put(before, libs[n - 1].0, libs[n - 1].1) == before + [libs[n - 1]];
      assert before + [libs[n - 1]] == libs[..n];
    }
  }

  lemma RenderParses(libs: Libraries)
    requires Printable(libs)
    ensures ParseItems(Render(libs)) == Pairs(libs)
  {
    forall j | 0 <= j < |libs| ensures ParseItem(Render(libs)[j]) == Ok(Some(libs[j])) {
      ParseItemLastColon(libs[j].0, libs[j].1);
    }
  }

  /** Joining printable pairs as `name:id` with ',' parses back to the same libraries. */
  lemma LibrariesRoundTrip(env: Env, name: string, libs: Libraries)
    requires libs != [] && Printable(libs)
    requires name in env && env[name] == Join(Render(libs), ',')
    ensures LibrariesOf(env, name) == Ok(libs)
  {
    var items := Render(libs);
    assert Join(items, ',') != "" by {
      assert |items[0]| > 0;
      JoinNonEmpty(items, ',');
    }
    assert Split(Join(items, ','), ',') == items by {
      forall j | 0 <= j < |items| ensures ',' !in items[j] {
        var d := IntToString(libs[j].1);
        assert items[j] == libs[j].0 + ":" + d;
      }
      SplitJoin(items, ',');
    }
    assert ParseItems(items) == Pairs(libs) by {
      RenderParses(libs);
    }
    assert Insert(Pairs(libs), |libs|) == Ok(libs) by {
      PrintableFresh(libs);
      InsertPairs(libs, |libs|);
      assert libs[..|libs|] == libs;
    }
  }

  lemma JoinNonEmpty(parts: seq<string>, sep: char)
    requires |parts| >= 1 && |parts[0]| > 0
    ensures Join(parts, sep) != ""
  {
    if |parts| > 1 {
      assert Join(parts, sep)[0] == parts[0][0];
    }
  }

  // ---------------------------------------------------------------------------
  // validate_config
  // ---------------------------------------------------------------------------

  const RequiredVars: seq<string> :=
    ["TELEGRAM_BOT_TOKEN", "OVERSEERR_API_URL", "OVERSEERR_API_KEY", "TELEGRAMBOT_USERNAME", "TELEGRAMBOT_PASSWORD"]

  function MissingMessage(v: string): string {
    "Missing required environment variable: " + v
  }

  /** One message per unset variable, in list order. */
  function MissingErrors(env: Env, vars: seq<string>): (r: seq<string>)
    ensures r == [] <==> forall j | 0 <= j < |vars| :: IsSet(env, vars[j])
    ensures forall j | 0 <= j < |vars| :: !IsSet(env, vars[j]) ==> MissingMessage(vars[j]) in r
    ensures |r| <= |vars|
  {
    if |vars| == 0 then []
    else
      var v := vars[|vars| - 1];
      var rest := MissingErrors(env, vars[..|vars| - 1]);
      assert forall j | 0 <= j < |vars| - 1 :: vars[j] == vars[..|vars| - 1][j];
      rest + (if IsSet(env, v) then [] else [MissingMessage(v)])
  }

  const UrlMessage: string := "OVERSEERR_API_URL must start with http:// or https://"
  const TokenMessage: string := "TELEGRAM_BOT_TOKEN appears to be invalid (should contain ':')"

  predicate BadUrl(env: Env) {
    var url := GetEnvRaw(env, "OVERSEERR_API_URL", Some("")).value;
    url != "" && !(StartsWith(url, "http://") || StartsWith(url, "https://"))
  }

  predicate BadToken(env: Env) {
    var token := GetEnvRaw(env, "TELEGRAM_BOT_TOKEN", Some("")).value;
    token != "" && ':' !in token
  }

  /** The error list validate_config collects. */
  function ValidationErrors(env: Env): seq<string> {
    MissingErrors(env, RequiredVars)
      + (if BadUrl(env) then [UrlMessage] else [])
      + (if BadToken(env) then [TokenMessage] else [])
  }

  /** The message of the raised ConfigurationError: a header and one "  - " line per error. */
  function Report(errors: seq<string>): string {
    "Configuration validation failed:\n" + Join(seq(|errors|, j requires 0 <= j < |errors| => "  - " + errors[j]), '\n')
  }

  /**
    validate_config: raises iff a required variable is unset, the URL is set
    without an http:// or https:// scheme, or the token is set without ':';
    unset libraries only produce the warning.
  */
  method ValidateConfig(env: Env) returns (r: Result<()>, warned: bool)
    ensures r.Err? <==>
      (exists j | 0 <= j < |RequiredVars| :: !IsSet(env, RequiredVars[j])) || BadUrl(env) || BadToken(env)
    ensures r.Err? ==> r.error == ConfigurationError(Report(ValidationErrors(env)))
    ensures warned <==> !IsSet(env, "LIBRARIES_MOVIES") && !IsSet(env, "LIBRARIES_TV")
  {
    var missing := MissingOf(env, RequiredVars);
    var url := if "OVERSEERR_API_URL" in env then env["OVERSEERR_API_URL"] else "";
    var urlError := if url != "" && !(StartsWith(url, "http://") || StartsWith(url, "https://")) then [UrlMessage] else [];
    assert urlError == if BadUrl(env) then [UrlMessage] else [] by {
      assert url == GetEnvRaw(env, "OVERSEERR_API_URL", Some("")).value;
    }
    var token := if "TELEGRAM_BOT_TOKEN" in env then env["TELEGRAM_BOT_TOKEN"] else "";
    var tokenError := if token != "" && ':' !in token then [TokenMessage] else [];
    assert tokenError == if BadToken(env) then [TokenMessage] else [] by {
      assert token == GetEnvRaw(env, "TELEGRAM_BOT_TOKEN", Some("")).value;
    }
    var errors := missing + urlError + tokenError;
    assert errors == ValidationErrors(env);
    assert errors != [] <==> missing != [] || BadUrl(env) || BadToken(env) by {
      assert |errors| == |missing| + |urlError| + |tokenError|;
    }
    warned := !IsSet(env, "LIBRARIES_MOVIES") && !IsSet(env, "LIBRARIES_TV");
    if errors != [] {
      r := Err(ConfigurationError(Report(errors)));
    } else {
      r := Ok(());
    }
  }

  /** The loop over the required variables: one message per unset one, in order. */
  method MissingOf(env: Env, vars: seq<string>) returns (errors: seq<string>)
    ensures errors == MissingErrors(env, vars)
  {
    errors := [];
    var i := 0;
    while i < |vars|
      invariant 0 <= i <= |vars|
      invariant errors == MissingErrors(env, vars[..i])
    {
      var v := vars[i];
      if !(v in env && env[v] != "") {
        errors := errors + [MissingMessage(v)];
      }
      assert vars[..i + 1][..i] == vars[..i];
      i := i + 1;
    }
    assert vars[..i] == vars;
  }

  /** Every unset required variable is named in the error list. */
  lemma ValidationNamesMissing(env: Env, v: string)
    requires v in RequiredVars && !IsSet(env, v)
    ensures MissingMessage(v) in ValidationErrors(env)
  {
  }

  // ---------------------------------------------------------------------------
  // ADMIN_USER_IDS and POSTGRES_ENABLED
  // ---------------------------------------------------------------------------

  /** A non-blank item that int() refuses. */
  predicate BadId(item: string) {
    Strip(item) != "" && ParseInt(item).None?
  }

  /** One item of the comprehension: skipped when blank, else its int(). */
  function IdOf(item: string): (r: Result<Option<int>>)
    ensures r.Err? <==> BadId(item)
    ensures r.Err? ==> r.error == ValueError
    ensures r == Ok(None) <==> Strip(item) == ""
  {
    var t := Strip(item);
    if t == "" then Ok(None)
    else
      match ParseInt(t)
      case None => Err(ValueError)
      case Some(id) => Ok(Some(id))
  }

  /** The ids of the kept items, in order; the first failing item raises. */
  function CollectIds(parsed: seq<Result<Option<int>>>): (r: Result<seq<int>>)
    ensures r.Err? <==> exists j | 0 <= j < |parsed| :: parsed[j].Err?
    ensures r.Ok? ==> |r.value| <= |parsed|
    ensures (forall j | 0 <= j < |parsed| :: parsed[j] == Ok(None)) ==> r == Ok([])
  {
    if |parsed| == 0 then Ok([])
    else
      assert forall j | 1 <= j < |parsed| :: parsed[j] == parsed[1..][j - 1];
      match parsed[0]
      case Err(e) => Err(e)
      case Ok(None) => CollectIds(parsed[1..])
      case Ok(Some(id)) =>
        match CollectIds(parsed[1..])
        case Err(e) => Err(e)
        case Ok(ids) => Ok([id] + ids)
  }

  /** `[int(uid.strip()) for uid in items if uid.strip()]` */
  function ParseIds(items: seq<string>): (r: Result<seq<int>>)
    ensures r.Err? <==> exists j | 0 <= j < |items| :: BadId(items[j])
    ensures r.Err? ==> r.error == ValueError
    ensures r.Ok? ==> |r.value| <= |items|
    ensures (forall j | 0 <= j < |items| :: Strip(items[j]) == "") ==> r == Ok([])
  {
    IdsRaiseIffBad(items);
    IdsErrorIsValueError(items);
    IdsOfBlank(items);
    CollectIds(IdsOf(items))
  }

  /** IdOf of every item, in order. */
  function IdsOf(items: seq<string>): (r: seq<Result<Option<int>>>)
    ensures |r| == |items| && forall j | 0 <= j < |items| :: r[j] == IdOf(items[j])
  {
    seq(|items|, j requires 0 <= j < |items| => IdOf(items[j]))
  }

  lemma IdsErrorIsValueError(items: seq<string>)
    ensures CollectIds(IdsOf(items)).Err? ==> CollectIds(IdsOf(items)).error == ValueError
  {
    var parsed := IdsOf(items);
    assert forall j | 0 <= j < |parsed| :: parsed[j].Err? ==> parsed[j].error == ValueError;
    CollectIdsErrors(parsed);
  }

  lemma IdsRaiseIffBad(items: seq<string>)
    ensures CollectIds(IdsOf(items)).Err? <==> exists j | 0 <= j < |items| :: BadId(items[j])
  {
    var parsed := IdsOf(items);
    if CollectIds(parsed).Err? {
      var j :| 0 <= j < |parsed| && parsed[j].Err?;
      assert BadId(items[j]);
    } else {
      forall j | 0 <= j < |items| ensures !BadId(items[j]) {
        assert !parsed[j].Err?;
      }
    }
  }

  lemma IdsOfBlank(items: seq<string>)
    ensures (forall j | 0 <= j < |items| :: Strip(items[j]) == "") ==> CollectIds(IdsOf(items)) == Ok([])
  {
    if forall j | 0 <= j < |items| :: Strip(items[j]) == "" {
      var parsed := IdsOf(items);
      assert forall j | 0 <= j < |parsed| :: parsed[j] == Ok(None);
    }
  }

  /** Every error Collect returns is one of its items'. */
  lemma {:induction false} CollectIdsErrors(parsed: seq<Result<Option<int>>>)
    requires forall j | 0 <= j < |parsed| :: parsed[j].Err? ==> parsed[j].error == ValueError
    ensures CollectIds(parsed).Err? ==> CollectIds(parsed).error == ValueError
  {
    if |parsed| > 0 {
      assert forall j | 1 <= j < |parsed| :: parsed[j] == parsed[1..][j - 1];
      CollectIdsErrors(parsed[1..]);
    }
  }

  /** ADMIN_USER_IDS, from the variable or the empty default. */
  function AdminUserIds(env: Env): Result<seq<int>> {
    ParseIds(Split(GetEnvRaw(env, "ADMIN_USER_IDS", Some("")).value, ','))
  }

  function IdTexts(ids: seq<int>): (r: seq<string>)
    ensures |r| == |ids| && forall j | 0 <= j < |ids| :: r[j] == IntToString(ids[j])
  {
    seq(|ids|, j requires 0 <= j < |ids| => IntToString(ids[j]))
  }

  /** Ids that were all kept come back unchanged. */
  lemma {:induction false} CollectIdsOfSome(ids: seq<int>)
    ensures CollectIds(seq(|ids|, j requires 0 <= j < |ids| => Ok(Some(ids[j])))) == Ok(ids)
  {
    if |ids| > 0 {
      var parsed := seq(|ids|, j requires 0 <= j < |ids| => Ok(Some(ids[j])));
      assert parsed[1..] == seq(|ids[1..]|, j requires 0 <= j < |ids[1..]| => Ok(Some(ids[1..][j])));
      CollectIdsOfSome(ids[1..]);
      assert ids == [ids[0]] + ids[1..];
    }
  }

  lemma IdOfIntToString(id: int)
    ensures IdOf(IntToString(id)) == Ok(Some(id))
  {
    DigitEndsStripped(IntToString(id));
    ParseIntOfIntToString(id);
  }

  lemma ParseIdsOfTexts(ids: seq<int>)
    ensures ParseIds(IdTexts(ids)) == Ok(ids)
  {
    var items := IdTexts(ids);
    var parsed := seq(|items|, j requires 0 <= j < |items| => IdOf(items[j]));
    forall j | 0 <= j < |ids| ensures parsed[j] == Ok(Some(ids[j])) {
      IdOfIntToString(ids[j]);
    }
    assert parsed == seq(|ids|, j requires 0 <= j < |ids| => Ok(Some(ids[j])));
    CollectIdsOfSome(ids);
  }

  /** Ids written as a comma list parse back to the same ids. */
  lemma AdminUserIdsRoundTrip(env: Env, ids: seq<int>)
    requires ids != [] && "ADMIN_USER_IDS" in env && env["ADMIN_USER_IDS"] == Join(IdTexts(ids), ',')
    ensures AdminUserIds(env) == Ok(ids)
  {
    SplitJoin(IdTexts(ids), ',');
    ParseIdsOfTexts(ids);
  }

  /** Unset, the variable reads as "", whose single blank item is skipped. */
  lemma AdminUserIdsUnset(env: Env)
    requires "ADMIN_USER_IDS" !in env
    ensures AdminUserIds(env) == Ok([])
  {
    assert Split("", ',') == [""];
    assert Strip("") == "";
  }

  /** POSTGRES_ENABLED: the lower-cased value (default "true") is "true", "1" or "yes". */
  function PostgresEnabled(env: Env): bool {
    Lower(GetEnvRaw(env, "POSTGRES_ENABLED", Some("true")).value) in {"true", "1", "yes"}
  }

  /** Unset means enabled; case does not matter; an empty value or "0" disables it. */
  lemma PostgresEnabledCases(env: Env)
    ensures "POSTGRES_ENABLED" !in env ==> PostgresEnabled(env)
    ensures "POSTGRES_ENABLED" in env && env["POSTGRES_ENABLED"] in {"TRUE", "Yes", "1"} ==> PostgresEnabled(env)
    ensures "POSTGRES_ENABLED" in env && env["POSTGRES_ENABLED"] in {"", "0", "false"} ==> !PostgresEnabled(env)
  {
    assert Lower("true") == "true";
    assert Lower("TRUE") == "true";
    assert Lower("Yes") == "yes";
    assert Lower("1") == "1";
    assert Lower("0") == "0";
    assert Lower("false") == "false";
  }
}
