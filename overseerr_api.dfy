/**
  Status resolution for Overseerr catalog records: `_normalize_status`, the
  canonical resolver `get_canonical_status` (with `_safe_get`, `STATUS_MAP` and
  `_is_full`), the recursive key search `_search_for_keys`, the attempt loop of
  `retry_on_failure`, and the result filtering of `search_media`.
*/
module OverseerrApi {
  import opened Wrappers
  import opened PyText
  import opened PyJson

  // ---------------------------------------------------------------------------
  // _normalize_status
  // ---------------------------------------------------------------------------

  predicate IsScalar(x: Json) { !x.JArr? && !x.JObj? }

  const AvailableWords: set<string> := {"AVAILABLE", "TRUE", "YES", "1"}
  const MissingWords: set<string> := {"MISSING", "FALSE", "NO", "0", "NOT AVAILABLE", "UNAVAILABLE"}

  /** The table consulted after the substring tests. */
  const KnownValues: map<string, string> := map[
    "MEDIA_AVAILABLE" := "AVAILABLE",
    "MEDIA_MISSING" := "MISSING",
    "PARTIALLY_AVAILABLE" := "PARTIALLY_AVAILABLE",
    "DECLINED" := "DECLINED",
    "PENDING" := "PENDING"
  ]

  /** The words `_normalize_status` produces other than an echoed input. */
  const NormalWords: set<string> :=
    {"AVAILABLE", "MISSING", "PARTIALLY_AVAILABLE", "PENDING", "PROCESSING", "DECLINED", "UNKNOWN"}

  /** The decisions applied to text that has already been stripped and upper-cased. */
  function NormalizeText(v: string): string {
    if v in AvailableWords then "AVAILABLE"
    else if v in MissingWords then "MISSING"
    else if Contains(v, "PARTIAL") then "PARTIALLY_AVAILABLE"
    else if Contains(v, "PENDING") then "PENDING"
    else if Contains(v, "PROCESS") then "PROCESSING"
    else if Contains(v, "DECLIN") || Contains(v, "DENIED") then "DECLINED"
    else if Contains(v, "REQUEST") && Contains(v, "PENDING") then "PENDING"
    else if v in KnownValues then KnownValues[v]
    else v
  }

  /** _normalize_status for a scalar raw value. */
  function NormalizeStatus(raw: Json): string
    requires IsScalar(raw)
  {
    match raw
    case JNull => "UNKNOWN"
    case JBool(b) => if b then "AVAILABLE" else "MISSING"
    case JInt(i) => if i != 0 then "AVAILABLE" else "MISSING"
    case JStr(s) => NormalizeText(Upper(Strip(s)))
  }

  /** Text in the form the string branch produces: no surrounding blanks, no lower-case ASCII. */
  predicate Normalized(v: string) {
    Stripped(v) && Upper(v) == v
  }

  lemma UpperFixed(v: string)
    requires forall i :: 0 <= i < |v| ==> !('a' <= v[i] <= 'z')
    ensures Upper(v) == v
  {
  }

  lemma NormalWordsNormalized(w: string)
    requires w in NormalWords
    ensures Normalized(w)
  {
    UpperFixed(w);
  }

  lemma NotContainsSameLength(v: string, sub: string)
    requires |v| == |sub| && v != sub
    ensures !Contains(v, sub)
  {
    forall i | 0 <= i <= |v| ensures !(sub <= v[i..]) {
      assert v[0..] == v;
    }
  }

  /** No occurrence of sub starts at any of the positions where v's character differs from sub[0]. */
  lemma NotContainsByFirst(v: string, sub: string)
    requires |sub| > 0
    requires forall i | 0 <= i < |v| :: v[i] != sub[0] || i + |sub| > |v|
    ensures !Contains(v, sub)
  {
    forall i | 0 <= i <= |v| ensures !(sub <= v[i..]) {
      if i < |v| { assert v[i..][0] == v[i]; }
    }
  }

  /** The same, looking at the first two characters of sub. */
  lemma NotContainsByTwo(v: string, sub: string)
    requires |sub| > 1
    requires forall i | 0 <= i < |v| - 1 :: v[i] != sub[0] || v[i + 1] != sub[1] || i + |sub| > |v|
    ensures !Contains(v, sub)
  {
    forall i | 0 <= i <= |v| ensures !(sub <= v[i..]) {
      if i < |v| - 1 { assert v[i..][0] == v[i] && v[i..][1] == v[i + 1]; }
    }
  }

  lemma ContainsAtStart(v: string, sub: string)
    requires sub <= v
    ensures Contains(v, sub)
  {
    assert v[0..] == v;
  }

  lemma NormalizePartially()
    ensures NormalizeText("PARTIALLY_AVAILABLE") == "PARTIALLY_AVAILABLE"
  {
    assert "PARTIALLY_AVAILABLE" !in AvailableWords && "PARTIALLY_AVAILABLE" !in MissingWords;
    ContainsAtStart("PARTIALLY_AVAILABLE", "PARTIAL");
  }

  lemma NormalizePending()
    ensures NormalizeText("PENDING") == "PENDING"
  {
    NotContainsSameLength("PENDING", "PARTIAL");
    ContainsAtStart("PENDING", "PENDING");
  }

  lemma NormalizeProcessing()
    ensures NormalizeText("PROCESSING") == "PROCESSING"
  {
    assert "PROCESSING" !in AvailableWords && "PROCESSING" !in MissingWords;
    NotContainsByTwo("PROCESSING", "PARTIAL");
    NotContainsByTwo("PROCESSING", "PENDING");
    ContainsAtStart("PROCESSING", "PROCESS");
  }

  lemma NormalizeDeclined()
    ensures NormalizeText("DECLINED") == "DECLINED"
  {
    assert "DECLINED" !in AvailableWords && "DECLINED" !in MissingWords;
    NotContainsByFirst("DECLINED", "PARTIAL");
    NotContainsByFirst("DECLINED", "PENDING");
    NotContainsByFirst("DECLINED", "PROCESS");
    ContainsAtStart("DECLINED", "DECLIN");
  }

  lemma NormalizeUnknown()
    ensures NormalizeText("UNKNOWN") == "UNKNOWN"
  {
    NotContainsByFirst("UNKNOWN", "PARTIAL");
    NotContainsByFirst("UNKNOWN", "PENDING");
    NotContainsByFirst("UNKNOWN", "PROCESS");
    NotContainsByFirst("UNKNOWN", "DECLIN");
    NotContainsByFirst("UNKNOWN", "DENIED");
    NotContainsByFirst("UNKNOWN", "REQUEST");
  }

  /** Each status word is a fixed point of the text rules. */
  lemma NormalizeTextOfNormalWord(w: string)
    requires w in NormalWords
    ensures NormalizeText(w) == w
  {
    if w == "PARTIALLY_AVAILABLE" {
      NormalizePartially();
    } else if w == "PENDING" {
      NormalizePending();
    } else if w == "PROCESSING" {
      NormalizeProcessing();
    } else if w == "DECLINED" {
      NormalizeDeclined();
    } else if w == "UNKNOWN" {
      NormalizeUnknown();
    }
  }

  /**
    The result of `_normalize_status` is either one of the seven status words
    or, for text matched by none of the rules, that text stripped and
    upper-cased.
  */
  lemma NormalizeStatusForm(raw: Json)
    requires IsScalar(raw)
    ensures var r := NormalizeStatus(raw);
      r in NormalWords || (raw.JStr? && r == Upper(Strip(raw.s)))
  {
    if raw.JStr? {
      NormalizeTextForm(Upper(Strip(raw.s)));
    }
  }

  /** The text rules give a status word or the text itself. */
  lemma NormalizeTextForm(v: string)
    ensures NormalizeText(v) in NormalWords || NormalizeText(v) == v
  {
    if v in KnownValues {
      assert forall k | k in KnownValues :: KnownValues[k] in NormalWords;
    }
  }

  /** Normalising an already normalised value gives it back unchanged. */
  lemma NormalizeStatusIdempotent(raw: Json)
    requires IsScalar(raw)
    ensures NormalizeStatus(JStr(NormalizeStatus(raw))) == NormalizeStatus(raw)
  {
    var r := NormalizeStatus(raw);
    if r in NormalWords {
      NormalWordsNormalized(r);
      NormalizeTextOfNormalWord(r);
    } else {
      var v := Upper(Strip(raw.s));
      UpperKeepsStripped(Strip(raw.s));
      UpperIdempotent(Strip(raw.s));
      assert r == v && Normalized(v);
    }
  }

  /** A bool is normalised exactly like the matching integer 1 or 0. */
  lemma NormalizeBoolAsInt(b: bool)
    ensures NormalizeStatus(JBool(b)) == NormalizeStatus(JInt(if b then 1 else 0))
    ensures NormalizeStatus(JBool(b)) == (if b then "AVAILABLE" else "MISSING")
  {
  }

  // ---------------------------------------------------------------------------
  // get_canonical_status
  // ---------------------------------------------------------------------------

  /** The five words `get_canonical_status` can report. */
  datatype Status = Available | PartiallyAvailable | Processing | Pending | Unknown

  function Word(s: Status): (w: string)
    ensures w in {"AVAILABLE", "PARTIALLY_AVAILABLE", "PROCESSING", "PENDING", "UNKNOWN"}
  {
    match s
    case Available => "AVAILABLE"
    case PartiallyAvailable => "PARTIALLY_AVAILABLE"
    case Processing => "PROCESSING"
    case Pending => "PENDING"
    case Unknown => "UNKNOWN"
  }

  /** The pair (status, {"source": ...}). */
  datatype Verdict = Verdict(status: Status, source: string)

  /** The text keys of STATUS_MAP. */
  function TextKey(v: string): Option<Status> {
    if v == "UNKNOWN" then Some(Unknown)
    else if v == "PENDING" then Some(Pending)
    else if v == "PROCESSING" then Some(Processing)
    else if v == "PARTIALLY_AVAILABLE" then Some(PartiallyAvailable)
    else if v in {"AVAILABLE", "READY", "COMPLETED", "COMPLETE", "DONE"} then Some(Available)
    else if v in {"RETURNING SERIES", "ENDED", "CANCELED", "CANCELLED", "IN PRODUCTION"} then Some(Unknown)
    else None
  }

  /**
    Direct lookup in STATUS_MAP.  A bool key and an int key are the same key
    in Python (True == 1, False == 0), and the later entry
    `True: "AVAILABLE"` replaced the value of the key 1, so 1 and True both
    map to AVAILABLE, and 0 and False both find the `False: "UNKNOWN"` entry.
  */
  function DirectKey(x: Json): Option<Status> {
    match x
    case JBool(b) => Some(if b then Available else Unknown)
    case JInt(i) =>
      if i == 0 then Some(Unknown)
      else if i == 1 then Some(Available)
      else if i == 2 then Some(Processing)
      else if i == 3 then Some(PartiallyAvailable)
      else if i == 4 then Some(Available)
      else None
    case JStr(s) => TextKey(s)
    case _ => None
  }

  /**
    STATUS_MAP.get(value, STATUS_MAP.get(str(value).upper(), "UNKNOWN")).
    The default is computed first; then a list or dict as the key raises
    TypeError (unhashable).
  */
  function StatusMapGet(x: Json): (r: Result<Status>)
    ensures r.Err? <==> (x.JArr? || x.JObj?)
  {
    if x.JArr? || x.JObj? then Err(TypeError)
    else
      match DirectKey(x)
      case Some(st) => Ok(st)
      case None =>
        match TextKey(Upper(ScalarStr(x).value))
        case Some(st) => Ok(st)
        case None => Ok(Unknown)
  }

  lemma TextKeyOfNumberText(i: int)
    ensures TextKey(Upper(IntToString(i))) == None
  {
    var t := IntToString(i);
    var u := Upper(t);
    assert u[0] == t[0];
    assert u[0] == '-' || IsDigit(u[0]);
  }

  /**
    STATUS_MAP treats a bool exactly as the integer it equals, and an integer
    maps to AVAILABLE iff it is 1 or 4: the collision of the keys 1 and True
    turns status 1 (PENDING in Overseerr) into AVAILABLE.
  */
  lemma StatusMapNumbers(x: Json, n: int)
    requires NumValue(x) == Some(n)
    ensures StatusMapGet(x) == StatusMapGet(JInt(n))
    ensures StatusMapGet(x) == Ok(Available) <==> n == 1 || n == 4
    ensures StatusMapGet(x) == Ok(Unknown) <==> !(1 <= n <= 4)
  {
    if !(0 <= n <= 4) {
      TextKeyOfNumberText(n);
    }
  }

  /** _safe_get(obj, *path): follow the keys while the cursor is a dict, else None. */
  function SafeGet(obj: Json, path: seq<string>): (r: Json)
    ensures path == [] ==> r == obj
    decreases |path|
  {
    if path == [] then obj
    else if obj.JObj? then SafeGet(Get(obj, path[0]), path[1..])
    else JNull
  }

  /**
    Following p and then q is following p + q: once the cursor is not a dict
    every further key gives None, and a one-key path into a dict is `get`.
  */
  lemma {:induction false} SafeGetAppend(obj: Json, p: seq<string>, q: seq<string>)
    ensures SafeGet(obj, p + q) == SafeGet(SafeGet(obj, p), q)
    ensures !obj.JObj? && p != [] ==> SafeGet(obj, p) == JNull
    ensures obj.JObj? && |p| == 1 ==> SafeGet(obj, p) == Get(obj, p[0])
    decreases |p|
  {
    if p != [] {
      assert (p + q)[0] == p[0];
      assert (p + q)[1..] == p[1..] + q;
      if obj.JObj? {
        SafeGetAppend(Get(obj, p[0]), p[1..], q);
      } else if q != [] {
        assert SafeGet(JNull, q) == JNull;
      }
    } else {
      assert p + q == q;
    }
  }

  /** The direct paths tried in order, with the name reported as the source. */
  const CandidatePaths: seq<(string, seq<string>)> := [
    ("mediaInfo.status", ["mediaInfo", "status"]),
    ("media.status", ["media", "status"]),
    ("status", ["status"]),
    ("mediaInfo.available", ["mediaInfo", "available"]),
    ("media.available", ["media", "available"]),
    ("mediaInfo.isAvailable", ["mediaInfo", "isAvailable"]),
    ("media.isAvailable", ["media", "isAvailable"])
  ]

  /** A candidate that does not decide: its value is None or maps to UNKNOWN. */
  predicate Passes(media: Json, path: seq<string>) {
    var v := SafeGet(media, path);
    v.JNull? || StatusMapGet(v) == Ok(Unknown)
  }

  /**
    The candidate loop.  It decides at the first candidate whose value is set
    and maps to a word other than UNKNOWN, and reports that candidate's name;
    every earlier candidate passes.  A value that cannot be looked up raises.
  */
  function FirstCandidate(media: Json, paths: seq<(string, seq<string>)>): (r: Result<Option<Verdict>>)
    ensures r.Err? ==> r.error == TypeError
  {
    if |paths| == 0 then Ok(None)
    else
      var v := SafeGet(media, paths[0].1);
      if v.JNull? then FirstCandidate(media, paths[1..])
      else
        match StatusMapGet(v)
        case Err(e) => Err(e)
        case Ok(st) =>
          if st != Unknown then Ok(Some(Verdict(st, paths[0].0)))
          else FirstCandidate(media, paths[1..])
  }

  /** Every one of the first n candidates is None or maps to UNKNOWN. */
  predicate AllPass(media: Json, paths: seq<(string, seq<string>)>, n: nat)
    requires n <= |paths|
  {
    forall j | 0 <= j < n :: Passes(media, paths[j].1)
  }

  /** Candidate i is set, maps to a status other than UNKNOWN, and gives v with its own name. */
  predicate DecidedBy(media: Json, paths: seq<(string, seq<string>)>, i: nat, v: Verdict)
    requires i < |paths|
  {
    && v.source == paths[i].0
    && SafeGet(media, paths[i].1) != JNull
    && StatusMapGet(SafeGet(media, paths[i].1)) == Ok(v.status)
    && v.status != Unknown
  }

  /** Nothing is decided iff every candidate passes; otherwise the first candidate that does not pass decides. */
  lemma {:induction false} FirstCandidateSpec(media: Json, paths: seq<(string, seq<string>)>)
    ensures FirstCandidate(media, paths) == Ok(None) <==> AllPass(media, paths, |paths|)
    ensures FirstCandidate(media, paths).Ok? && FirstCandidate(media, paths).value.Some? ==>
      exists i | 0 <= i < |paths| :: DecidedBy(media, paths, i, FirstCandidate(media, paths).value.value) && AllPass(media, paths, i)
  {
    if |paths| > 0 {
      var tail := paths[1..];
      FirstCandidateSpec(media, tail);
      AllPassTail(media, paths, |paths|);
      var r := FirstCandidate(media, paths);
      if Passes(media, paths[0].1) {
        assert r == FirstCandidate(media, tail);
        if r.Ok? && r.value.Some? {
          var i :| 0 <= i < |tail| && DecidedBy(media, tail, i, r.value.value) && AllPass(media, tail, i);
          AllPassTail(media, paths, i + 1);
          DecidedByTail(media, paths, i, r.value.value);
        }
      } else if r.Ok? && r.value.Some? {
        assert DecidedBy(media, paths, 0, r.value.value);
      }
    }
  }

  lemma AllPassTail(media: Json, paths: seq<(string, seq<string>)>, n: nat)
    requires 0 < n <= |paths|
    ensures AllPass(media, paths, n) <==> Passes(media, paths[0].1) && AllPass(media, paths[1..], n - 1)
  {
    assert forall j | 1 <= j < n :: paths[j] == paths[1..][j - 1];
  }

  lemma DecidedByTail(media: Json, paths: seq<(string, seq<string>)>, i: nat, v: Verdict)
    requires i + 1 < |paths| && DecidedBy(media, paths[1..], i, v)
    ensures DecidedBy(media, paths, i + 1, v)
  {
    assert paths[1..][i] == paths[i + 1];
  }

  /** _is_full(s): status 4 or "AVAILABLE", or episodesAvailable (0) >= episodeCount (1). */
  function IsFull(s: Json): (r: Result<bool>)
    ensures !s.JObj? ==> r == Err(AttributeError)
    ensures s.JObj? && (EqInt(Get(s, "status"), 4) || Get(s, "status") == JStr("AVAILABLE")) ==> r == Ok(true)
    ensures s.JObj? && !EqInt(Get(s, "status"), 4) && Get(s, "status") != JStr("AVAILABLE") ==>
      var avail := GetOr(s, "episodesAvailable", JInt(0));
      var count := GetOr(s, "episodeCount", JInt(1));
      && (NumValue(avail).Some? && NumValue(count).Some? ==> r == Ok(NumValue(avail).value >= NumValue(count).value))
      && (r.Err? <==> !((NumValue(avail).Some? && NumValue(count).Some?) || (avail.JStr? && count.JStr?)))
  {
    if !s.JObj? then Err(AttributeError)
    else
      var st := Get(s, "status");
      if EqInt(st, 4) || st == JStr("AVAILABLE") then Ok(true)
      else Ge(GetOr(s, "episodesAvailable", JInt(0)), GetOr(s, "episodeCount", JInt(1)))
  }

  /** `x in requested_seasons` for a list of ints. */
  predicate InRequested(x: Json, requested: seq<int>) {
    exists k | 0 <= k < |requested| :: EqInt(x, requested[k])
  }

  /** One season's test in the requested-seasons comprehension; `and` short-circuits. */
  function RequestedFull(s: Json, requested: seq<int>): Result<bool> {
    if !s.JObj? then Err(AttributeError)
    else if InRequested(Get(s, "seasonNumber"), requested) then IsFull(s)
    else Ok(false)
  }

  /** The test of either comprehension: requested and full, or full. */
  function Keep(s: Json, requested: seq<int>, onlyRequested: bool): Result<bool> {
    if onlyRequested then RequestedFull(s, requested) else IsFull(s)
  }

  /** [s for s in seasons if keep(s)], raising at the first season whose test raises. */
  function FilterSeasons(seasons: seq<Json>, requested: seq<int>, onlyRequested: bool): (r: Result<seq<Json>>)
    ensures r.Ok? ==> |r.value| <= |seasons|
    ensures r.Ok? ==> forall s :: s in r.value ==>
      s in seasons && Keep(s, requested, onlyRequested) == Ok(true)
    ensures r.Ok? && |r.value| == |seasons| ==> r.value == seasons
  {
    if |seasons| == 0 then Ok([])
    else
      match Keep(seasons[0], requested, onlyRequested)
      case Err(e) => Err(e)
      case Ok(k) =>
        match FilterSeasons(seasons[1..], requested, onlyRequested)
        case Err(e) => Err(e)
        case Ok(rest) => Ok(if k then [seasons[0]] + rest else rest)
  }

  /** The container whose "seasons" are examined: mediaInfo, else media, else the record. */
  function Container(media: Json): Json {
    Or(Or(SafeGet(media, ["mediaInfo"]), SafeGet(media, ["media"])), media)
  }

  /** The season list, when it is a non-empty list. */
  function SeasonList(media: Json): Option<seq<Json>> {
    var c := Container(media);
    var seasons := if c.JObj? then Get(c, "seasons") else JNull;
    if seasons.JArr? && |seasons.items| > 0 then Some(seasons.items) else None
  }

  /** The season-level step: a verdict, nothing (fall through), or a raised error. */
  function SeasonVerdict(media: Json, requested: seq<int>): (r: Result<Option<Verdict>>)
    ensures r.Ok? && r.value.Some? ==> |r.value.value.source| > 0
  {
    match SeasonList(media)
    case None => Ok(None)
    case Some(seasons) =>
      if |requested| > 0 then
        match FilterSeasons(seasons, requested, true)
        case Err(e) => Err(e)
        case Ok(matched) =>
          if |matched| == |requested| then Ok(Some(Verdict(Available, "seasons.requested_full")))
          else if |matched| > 0 then Ok(Some(Verdict(PartiallyAvailable, "seasons.requested_partial")))
          else Ok(None)
      else
        match FilterSeasons(seasons, requested, false)
        case Err(e) => Err(e)
        case Ok(full) =>
          if |full| == |seasons| then Ok(Some(Verdict(Available, "seasons.all_full")))
          else if |full| > 0 then Ok(Some(Verdict(PartiallyAvailable, "seasons.some_full")))
          else Ok(None)
  }

  const LinkedIdKeys: seq<string> := ["plexId", "ratingKey", "jellyfinId", "tautulliId"]

  predicate HasLinkedId(media: Json, key: string) {
    Truthy(SafeGet(media, ["mediaInfo", key])) || Truthy(SafeGet(media, ["media", key]))
  }

  /** The linked-library loop and the final fallback. */
  function LinkedIdVerdict(media: Json, keys: seq<string>): (v: Verdict)
    ensures v.source == "fallback" <==> forall j | 0 <= j < |keys| :: !HasLinkedId(media, keys[j])
    ensures v.source != "fallback" ==>
      exists i | 0 <= i < |keys| :: v == Verdict(Available, "id:" + keys[i]) && HasLinkedId(media, keys[i])
    ensures v.source == "fallback" ==> v.status == Unknown
    ensures |v.source| > 0
  {
    if |keys| == 0 then Verdict(Unknown, "fallback")
    else if HasLinkedId(media, keys[0]) then
      var v := Verdict(Available, "id:" + keys[0]);
      assert v.source[0] == 'i';
      v
    else
      var v := LinkedIdVerdict(media, keys[1..]);
      assert forall j | 1 <= j < |keys| :: keys[j] == keys[1..][j - 1];
      v
  }

  /**
    get_canonical_status for a record already fetched (a non-dict gives
    no_media_dict), with `requested` the requested season numbers (an empty
    list counts as none given).
  */
  function GetCanonicalStatus(media: Json, requested: seq<int>): Result<Verdict> {
    if !media.JObj? then Ok(Verdict(Unknown, "no_media_dict"))
    else
      match FirstCandidate(media, CandidatePaths)
      case Err(e) => Err(e)
      case Ok(Some(v)) => Ok(v)
      case Ok(None) =>
        match SeasonVerdict(media, requested)
        case Err(e) => Err(e)
        case Ok(Some(v)) => Ok(v)
        case Ok(None) => Ok(LinkedIdVerdict(media, LinkedIdKeys))
  }

  lemma CandidateNamesNonEmpty()
    ensures forall i | 0 <= i < |CandidatePaths| :: |CandidatePaths[i].0| > 0
  {
  }

  /**
    A non-dict record gives UNKNOWN from no_media_dict; otherwise every
    verdict names the step that decided it, so the source is never empty.
  */
  lemma CanonicalStatusShape(media: Json, requested: seq<int>)
    ensures !media.JObj? ==> GetCanonicalStatus(media, requested) == Ok(Verdict(Unknown, "no_media_dict"))
    ensures GetCanonicalStatus(media, requested).Ok? ==> |GetCanonicalStatus(media, requested).value.source| > 0
  {
    CandidateNamesNonEmpty();
    FirstCandidateSpec(media, CandidatePaths);
  }

  /** get_canonical_status given a TMDb id: a failed fetch is treated as an empty dict. */
  function CanonicalStatusOfFetch(fetched: Fetched<Json>, requested: seq<int>): Result<Verdict> {
    match fetched
    case FetchFailed => GetCanonicalStatus(JObj([]), requested)
    case Fetched(media) => GetCanonicalStatus(media, requested)
  }

  /** A record whose fetch failed resolves through every step to the fallback. */
  lemma FailedFetchIsFallback(requested: seq<int>)
    ensures CanonicalStatusOfFetch(FetchFailed, requested) == Ok(Verdict(Unknown, "fallback"))
  {
    var m := JObj([]);
    EmptyNoCandidate();
    assert SeasonVerdict(m, requested) == Ok(None) by {
      assert Container(m) == m;
      assert SeasonList(m) == None;
    }
    EmptyNoLinkedId();
  }

  /** Every path into the empty dict gives None. */
  lemma SafeGetEmpty(path: seq<string>)
    requires path != []
    ensures SafeGet(JObj([]), path) == JNull
  {
    assert Get(JObj([]), path[0]) == JNull;
    if |path| > 1 {
      assert SafeGet(JNull, path[1..]) == JNull;
    }
  }

  lemma EmptyNoCandidate()
    ensures FirstCandidate(JObj([]), CandidatePaths) == Ok(None)
  {
    FirstCandidateSpec(JObj([]), CandidatePaths);
    forall j | 0 <= j < |CandidatePaths| ensures Passes(JObj([]), CandidatePaths[j].1) {
      SafeGetEmpty(CandidatePaths[j].1);
    }
  }

  lemma EmptyNoLinkedId()
    ensures LinkedIdVerdict(JObj([]), LinkedIdKeys) == Verdict(Unknown, "fallback")
  {
    forall j | 0 <= j < |LinkedIdKeys| ensures !HasLinkedId(JObj([]), LinkedIdKeys[j]) {
      SafeGetEmpty(["mediaInfo", LinkedIdKeys[j]]);
      SafeGetEmpty(["media", LinkedIdKeys[j]]);
    }
  }

  /** Integer status 1 under mediaInfo is reported AVAILABLE (the True/1 key collision). */
  lemma StatusOneIsAvailable(media: Json, requested: seq<int>)
    requires media.JObj?
    requires NumValue(SafeGet(media, ["mediaInfo", "status"])) == Some(1)
    ensures GetCanonicalStatus(media, requested) == Ok(Verdict(Available, "mediaInfo.status"))
  {
    StatusMapNumbers(SafeGet(media, ["mediaInfo", "status"]), 1);
  }

  /**
    With requested seasons given, when no requested season is full the season
    step does not report PARTIALLY_AVAILABLE: it falls through to the
    linked-library ids and the fallback.
  */
  lemma RequestedNoneFullFallsThrough(media: Json, requested: seq<int>)
    requires media.JObj? && |requested| > 0
    requires FirstCandidate(media, CandidatePaths) == Ok(None)
    requires SeasonList(media).Some?
    requires FilterSeasons(SeasonList(media).value, requested, true) == Ok([])
    ensures GetCanonicalStatus(media, requested) == Ok(LinkedIdVerdict(media, LinkedIdKeys))
    ensures GetCanonicalStatus(media, requested).value.status in {Available, Unknown}
  {
  }

  /** With no seasons requested and every season full, the record is AVAILABLE. */
  lemma AllSeasonsFull(media: Json)
    requires media.JObj?
    requires FirstCandidate(media, CandidatePaths) == Ok(None)
    requires SeasonList(media).Some?
    requires forall s :: s in SeasonList(media).value ==> IsFull(s) == Ok(true)
    ensures GetCanonicalStatus(media, []) == Ok(Verdict(Available, "seasons.all_full"))
  {
    AllKept(SeasonList(media).value, []);
  }

  /** When no test raises, the filter succeeds and keeps every season that passes. */
  lemma {:induction false} FilterKeepsPassing(seasons: seq<Json>, requested: seq<int>, onlyRequested: bool)
    requires forall k | 0 <= k < |seasons| :: Keep(seasons[k], requested, onlyRequested).Ok?
    ensures FilterSeasons(seasons, requested, onlyRequested).Ok?
    ensures forall k | 0 <= k < |seasons| :: Keep(seasons[k], requested, onlyRequested) == Ok(true) ==>
      seasons[k] in FilterSeasons(seasons, requested, onlyRequested).value
  {
    if |seasons| > 0 {
      FilterKeepsPassing(seasons[1..], requested, onlyRequested);
      assert forall k | 1 <= k < |seasons| :: seasons[k] == seasons[1..][k - 1];
    }
  }

  /** When exactly one season passes and none raises, the filter keeps that season alone. */
  lemma {:induction false} FilterOnePassing(seasons: seq<Json>, requested: seq<int>, onlyRequested: bool, i: nat)
    requires i < |seasons| && Keep(seasons[i], requested, onlyRequested) == Ok(true)
    requires forall k | 0 <= k < |seasons| && k != i :: Keep(seasons[k], requested, onlyRequested) == Ok(false)
    ensures FilterSeasons(seasons, requested, onlyRequested) == Ok([seasons[i]])
  {
    assert forall k | 0 <= k < |seasons| - 1 :: seasons[1..][k] == seasons[k + 1];
    if i == 0 {
      NonePassing(seasons[1..], requested, onlyRequested);
      assert FilterSeasons(seasons, requested, onlyRequested) == Ok([seasons[0]] + []);
      assert [seasons[0]] + [] == [seasons[0]];
    } else {
      FilterOnePassing(seasons[1..], requested, onlyRequested, i - 1);
    }
  }

  lemma {:induction false} NonePassing(seasons: seq<Json>, requested: seq<int>, onlyRequested: bool)
    requires forall k | 0 <= k < |seasons| :: Keep(seasons[k], requested, onlyRequested) == Ok(false)
    ensures FilterSeasons(seasons, requested, onlyRequested) == Ok([])
  {
    if |seasons| > 0 {
      NonePassing(seasons[1..], requested, onlyRequested);
    }
  }

  /**
    With no seasons requested, no season test raising, and some but not all
    seasons full, the record is PARTIALLY_AVAILABLE.
  */
  lemma SomeSeasonsFull(media: Json, i: nat, j: nat)
    requires media.JObj?
    requires FirstCandidate(media, CandidatePaths) == Ok(None)
    requires SeasonList(media).Some?
    requires forall k | 0 <= k < |SeasonList(media).value| :: IsFull(SeasonList(media).value[k]).Ok?
    requires i < |SeasonList(media).value| && IsFull(SeasonList(media).value[i]) == Ok(true)
    requires j < |SeasonList(media).value| && IsFull(SeasonList(media).value[j]) == Ok(false)
    ensures GetCanonicalStatus(media, []) == Ok(Verdict(PartiallyAvailable, "seasons.some_full"))
  {
    var ss := SeasonList(media).value;
    FilterKeepsPassing(ss, [], false);
    var full := FilterSeasons(ss, [], false).value;
    assert ss[i] in full;
  }

  /**
    With one season requested and exactly one season carrying that number
    and full, the record is AVAILABLE from the requested seasons.
  */
  lemma OneRequestedSeasonFull(media: Json, n: int, i: nat)
    requires media.JObj?
    requires FirstCandidate(media, CandidatePaths) == Ok(None)
    requires SeasonList(media).Some?
    requires i < |SeasonList(media).value| && RequestedFull(SeasonList(media).value[i], [n]) == Ok(true)
    requires forall k | 0 <= k < |SeasonList(media).value| && k != i :: RequestedFull(SeasonList(media).value[k], [n]) == Ok(false)
    ensures GetCanonicalStatus(media, [n]) == Ok(Verdict(Available, "seasons.requested_full"))
  {
    FilterOnePassing(SeasonList(media).value, [n], true, i);
  }

  /** How many seasons pass the comprehension's test. */
  function PassCount(seasons: seq<Json>, requested: seq<int>, onlyRequested: bool): nat {
    if |seasons| == 0 then 0
    else (if Keep(seasons[0], requested, onlyRequested) == Ok(true) then 1 else 0) + PassCount(seasons[1..], requested, onlyRequested)
  }

  /** When no test raises, the comprehension keeps exactly the passing seasons, so its length is their count. */
  lemma {:induction false} FilterCount(seasons: seq<Json>, requested: seq<int>, onlyRequested: bool)
    requires forall k | 0 <= k < |seasons| :: Keep(seasons[k], requested, onlyRequested).Ok?
    ensures FilterSeasons(seasons, requested, onlyRequested).Ok?
    ensures |FilterSeasons(seasons, requested, onlyRequested).value| == PassCount(seasons, requested, onlyRequested)
  {
    if |seasons| > 0 {
      assert Keep(seasons[0], requested, onlyRequested).Ok?;
      assert forall k | 0 <= k < |seasons| - 1 :: seasons[1..][k] == seasons[k + 1];
      FilterCount(seasons[1..], requested, onlyRequested);
    }
  }

  /**
    With seasons requested and no season test raising, the verdict depends on
    how many seasons are requested and full: as many as there are requested
    numbers gives AVAILABLE, some gives PARTIALLY_AVAILABLE, and none falls
    through to the linked-library ids.
  */
  lemma RequestedSeasonsVerdict(media: Json, requested: seq<int>, seasons: seq<Json>)
    requires media.JObj? && |requested| > 0
    requires FirstCandidate(media, CandidatePaths) == Ok(None)
    requires SeasonList(media) == Some(seasons)
    requires forall k | 0 <= k < |seasons| :: RequestedFull(seasons[k], requested).Ok?
    ensures PassCount(seasons, requested, true) == |requested| ==>
      GetCanonicalStatus(media, requested) == Ok(Verdict(Available, "seasons.requested_full"))
    ensures 0 < PassCount(seasons, requested, true) != |requested| ==>
      GetCanonicalStatus(media, requested) == Ok(Verdict(PartiallyAvailable, "seasons.requested_partial"))
    ensures PassCount(seasons, requested, true) == 0 ==>
      GetCanonicalStatus(media, requested) == Ok(LinkedIdVerdict(media, LinkedIdKeys))
  {
    FilterCount(seasons, requested, true);
  }

  /** No two requested numbers are the same. */
  predicate Distinct(requested: seq<int>) {
    forall i, j | 0 <= i < j < |requested| :: requested[i] != requested[j]
  }

  /** The requested full seasons counted number by number; for one number r, PassCount(seasons, [r], true) counts the full seasons numbered r. */
  function PerNumberCount(seasons: seq<Json>, requested: seq<int>): nat
    decreases |requested|
  {
    if |requested| == 0 then 0
    else PerNumberCount(seasons, requested[..|requested| - 1]) + PassCount(seasons, [requested[|requested| - 1]], true)
  }

  /** A season number not among `init` adds its own seasons to the test, without overlap. */
  lemma RequestedFullSplit(s: Json, init: seq<int>, r: int)
    requires r !in init
    ensures (if RequestedFull(s, init + [r]) == Ok(true) then 1 else 0) ==
      (if RequestedFull(s, init) == Ok(true) then 1 else 0) + (if RequestedFull(s, [r]) == Ok(true) then 1 else 0)
  {
    if s.JObj? {
      var x := Get(s, "seasonNumber");
      var all := init + [r];
      assert InRequested(x, [r]) <==> EqInt(x, r) by {
        assert [r][0] == r;
      }
      assert InRequested(x, all) <==> InRequested(x, init) || EqInt(x, r) by {
        assert all[|init|] == r;
        assert forall k | 0 <= k < |init| :: all[k] == init[k];
      }
      assert !(InRequested(x, init) && EqInt(x, r));
    }
  }

  lemma {:induction false} PassCountSplit(seasons: seq<Json>, init: seq<int>, r: int)
    requires r !in init
    ensures PassCount(seasons, init + [r], true) == PassCount(seasons, init, true) + PassCount(seasons, [r], true)
  {
    if |seasons| > 0 {
      RequestedFullSplit(seasons[0], init, r);
      PassCountSplit(seasons[1..], init, r);
    }
  }

  lemma {:induction false} PassCountNoneRequested(seasons: seq<Json>)
    ensures PassCount(seasons, [], true) == 0
  {
    if |seasons| > 0 {
      PassCountNoneRequested(seasons[1..]);
    }
  }

  /** With distinct requested numbers, the count of requested full seasons is the sum over the numbers. */
  lemma {:induction false} PassCountByNumber(seasons: seq<Json>, requested: seq<int>)
    requires Distinct(requested)
    ensures PassCount(seasons, requested, true) == PerNumberCount(seasons, requested)
    decreases |requested|
  {
    if |requested| == 0 {
      PassCountNoneRequested(seasons);
    } else {
      var init := requested[..|requested| - 1];
      var r := requested[|requested| - 1];
      assert requested == init + [r];
      assert r !in init by {
        forall k | 0 <= k < |init| ensures init[k] != r {
          assert init[k] == requested[k];
        }
      }
      PassCountByNumber(seasons, init);
      PassCountSplit(seasons, init, r);
    }
  }

  /** Bounds on the per-number sum from bounds on each number's count. */
  lemma {:induction false} PerNumberBounds(seasons: seq<Json>, requested: seq<int>)
    ensures (forall j | 0 <= j < |requested| :: PassCount(seasons, [requested[j]], true) == 1) ==>
      PerNumberCount(seasons, requested) == |requested|
    ensures (forall j | 0 <= j < |requested| :: PassCount(seasons, [requested[j]], true) <= 1) ==>
      PerNumberCount(seasons, requested) <= |requested|
    ensures ((forall j | 0 <= j < |requested| :: PassCount(seasons, [requested[j]], true) <= 1) &&
      (exists j | 0 <= j < |requested| :: PassCount(seasons, [requested[j]], true) == 0)) ==>
      PerNumberCount(seasons, requested) < |requested|
    ensures (exists j | 0 <= j < |requested| :: PassCount(seasons, [requested[j]], true) > 0) ==>
      PerNumberCount(seasons, requested) > 0
    decreases |requested|
  {
    if |requested| > 0 {
      var n := |requested| - 1;
      var init := requested[..n];
      assert forall j | 0 <= j < n :: init[j] == requested[j];
      PerNumberBounds(seasons, init);
    }
  }

  /**
    With distinct requested numbers, each carried by exactly one full season,
    and no season test raising, the record is AVAILABLE from the requested seasons.
  */
  lemma RequestedAllFull(media: Json, requested: seq<int>, seasons: seq<Json>)
    requires media.JObj? && |requested| > 0 && Distinct(requested)
    requires FirstCandidate(media, CandidatePaths) == Ok(None)
    requires SeasonList(media) == Some(seasons)
    requires forall k | 0 <= k < |seasons| :: RequestedFull(seasons[k], requested).Ok?
    requires forall j | 0 <= j < |requested| :: PassCount(seasons, [requested[j]], true) == 1
    ensures GetCanonicalStatus(media, requested) == Ok(Verdict(Available, "seasons.requested_full"))
  {
    PassCountByNumber(seasons, requested);
    PerNumberBounds(seasons, requested);
    RequestedSeasonsVerdict(media, requested, seasons);
  }

  /**
    With distinct requested numbers, each carried by at most one full season,
    some but not all of them carried, and no season test raising, the record
    is PARTIALLY_AVAILABLE from the requested seasons.
  */
  lemma RequestedSomeFull(media: Json, requested: seq<int>, seasons: seq<Json>, i: nat, j: nat)
    requires media.JObj? && |requested| > 0 && Distinct(requested)
    requires FirstCandidate(media, CandidatePaths) == Ok(None)
    requires SeasonList(media) == Some(seasons)
    requires forall k | 0 <= k < |seasons| :: RequestedFull(seasons[k], requested).Ok?
    requires forall k | 0 <= k < |requested| :: PassCount(seasons, [requested[k]], true) <= 1
    requires i < |requested| && PassCount(seasons, [requested[i]], true) == 1
    requires j < |requested| && PassCount(seasons, [requested[j]], true) == 0
    ensures GetCanonicalStatus(media, requested) == Ok(Verdict(PartiallyAvailable, "seasons.requested_partial"))
  {
    PassCountByNumber(seasons, requested);
    PerNumberBounds(seasons, requested);
    RequestedSeasonsVerdict(media, requested, seasons);
  }

  /**
    The comprehension counts seasons, not numbers: two full seasons carrying
    the first of two requested numbers, and none carrying the second, still
    give AVAILABLE from the requested seasons.
  */
  lemma RequestedCountsSeasons(media: Json, a: int, b: int, seasons: seq<Json>)
    requires media.JObj? && a != b
    requires FirstCandidate(media, CandidatePaths) == Ok(None)
    requires SeasonList(media) == Some(seasons)
    requires forall k | 0 <= k < |seasons| :: RequestedFull(seasons[k], [a, b]).Ok?
    requires PassCount(seasons, [a], true) == 2 && PassCount(seasons, [b], true) == 0
    ensures GetCanonicalStatus(media, [a, b]) == Ok(Verdict(Available, "seasons.requested_full"))
  {
    assert [a] + [b] == [a, b];
    PassCountSplit(seasons, [a], b);
    RequestedSeasonsVerdict(media, [a, b], seasons);
  }

  lemma {:induction false} AllKept(seasons: seq<Json>, requested: seq<int>)
    requires forall s :: s in seasons ==> IsFull(s) == Ok(true)
    ensures FilterSeasons(seasons, requested, false) == Ok(seasons)
  {
    if |seasons| > 0 {
      AllKept(seasons[1..], requested);
      assert seasons == [seasons[0]] + seasons[1..];
    }
  }

  // ---------------------------------------------------------------------------
  // _search_for_keys
  // ---------------------------------------------------------------------------

  /** A key that looks like a status or availability flag. */
  predicate KeyMatches(k: string) {
    Contains(Lower(k), "status") || Contains(Lower(k), "available")
  }

  /** The pair (k, v) appears in some dict nested anywhere inside obj. */
  predicate Occurs(obj: Json, k: string, v: Json)
    decreases obj
  {
    match obj
    case JObj(fields) =>
      exists i | 0 <= i < |fields| :: fields[i] == (k, v) || Occurs(fields[i].1, k, v)
    case JArr(items) => exists i | 0 <= i < |items| :: Occurs(items[i], k, v)
    case _ => false
  }

  /** Some dict nested anywhere inside obj has a status-like key. */
  predicate HasStatusKey(obj: Json)
    decreases obj
  {
    match obj
    case JObj(fields) =>
      exists i | 0 <= i < |fields| :: KeyMatches(fields[i].0) || HasStatusKey(fields[i].1)
    case JArr(items) => exists i | 0 <= i < |items| :: HasStatusKey(items[i])
    case _ => false
  }

  /**
    _search_for_keys: depth first, in key order, the value of the first
    status-like key, with "key:<name>" as its label.
  */
  function SearchForKeys(obj: Json): (r: Option<(Json, string)>)
    ensures r.Some? ==> exists k :: r.value.1 == "key:" + k && KeyMatches(k) && Occurs(obj, k, r.value.0)
    decreases obj, 1
  {
    match obj
    case JObj(fields) => SearchFields(obj, 0)
    case JArr(items) => SearchItems(obj, 0)
    case _ => None
  }

  function SearchFields(obj: Json, i: nat): (r: Option<(Json, string)>)
    requires obj.JObj? && i <= |obj.fields|
    ensures r.Some? ==> exists k :: r.value.1 == "key:" + k && KeyMatches(k) && Occurs(obj, k, r.value.0)
    decreases obj, 0, |obj.fields| - i
  {
    if i == |obj.fields| then None
    else
      var k := obj.fields[i].0;
      var v := obj.fields[i].1;
      assert obj.fields[i] in obj.fields;
      if KeyMatches(k) then
        assert obj.fields[i] == (k, v);
        Some((v, "key:" + k))
      else if (v.JObj? || v.JArr?) && SearchForKeys(v).Some? then
        var found := SearchForKeys(v);
        assert exists k' :: found.value.1 == "key:" + k' && KeyMatches(k') && Occurs(v, k', found.value.0);
        found
      else SearchFields(obj, i + 1)
  }

  function SearchItems(obj: Json, i: nat): (r: Option<(Json, string)>)
    requires obj.JArr? && i <= |obj.items|
    ensures r.Some? ==> exists k :: r.value.1 == "key:" + k && KeyMatches(k) && Occurs(obj, k, r.value.0)
    decreases obj, 0, |obj.items| - i
  {
    if i == |obj.items| then None
    else
      assert obj.items[i] in obj.items;
      var found := SearchForKeys(obj.items[i]);
      if found.Some? then found else SearchItems(obj, i + 1)
  }

  /** The search finds something iff some nested dict has a status-like key. */
  lemma {:induction false} SearchForKeysComplete(obj: Json)
    ensures SearchForKeys(obj).Some? <==> HasStatusKey(obj)
    decreases obj, 1
  {
    match obj
    case JObj(fields) =>
      SearchFieldsComplete(obj, 0);
      assert SearchForKeys(obj) == SearchFields(obj, 0);
      assert HasStatusKey(obj) <==> exists j | 0 <= j < |fields| :: KeyMatches(fields[j].0) || HasStatusKey(fields[j].1);
    case JArr(items) =>
      SearchItemsComplete(obj, 0);
      assert SearchForKeys(obj) == SearchItems(obj, 0);
      assert HasStatusKey(obj) <==> exists j | 0 <= j < |items| :: HasStatusKey(items[j]);
    case _ =>
  }

  lemma {:induction false} SearchFieldsComplete(obj: Json, i: nat)
    requires obj.JObj? && i <= |obj.fields|
    ensures SearchFields(obj, i).Some? <==>
      exists j | i <= j < |obj.fields| :: KeyMatches(obj.fields[j].0) || HasStatusKey(obj.fields[j].1)
    decreases obj, 0, |obj.fields| - i
  {
    if i < |obj.fields| {
      var v := obj.fields[i].1;
      assert SearchForKeys(v).Some? <==> HasStatusKey(v) by {
        assert obj.fields[i] in obj.fields;
        SearchForKeysComplete(v);
      }
      assert SearchFields(obj, i + 1).Some? <==>
        exists j | i + 1 <= j < |obj.fields| :: KeyMatches(obj.fields[j].0) || HasStatusKey(obj.fields[j].1) by {
        SearchFieldsComplete(obj, i + 1);
      }
      SomeFieldFrom(obj.fields, i);
      SearchFieldsStep(obj, i);
    }
  }

  /** One step of the dict scan: the key itself, else its value's search, else the rest of the dict. */
  lemma SearchFieldsStep(obj: Json, i: nat)
    requires obj.JObj? && i < |obj.fields|
    ensures SearchFields(obj, i).Some? <==>
      KeyMatches(obj.fields[i].0) || SearchForKeys(obj.fields[i].1).Some? || SearchFields(obj, i + 1).Some?
  {
  }

  /** Some field from i on qualifies iff field i does or some field after it does. */
  lemma SomeFieldFrom(fields: seq<(string, Json)>, i: nat)
    requires i < |fields|
    ensures (exists j | i <= j < |fields| :: KeyMatches(fields[j].0) || HasStatusKey(fields[j].1))
      <==> (KeyMatches(fields[i].0) || HasStatusKey(fields[i].1))
           || exists j | i + 1 <= j < |fields| :: KeyMatches(fields[j].0) || HasStatusKey(fields[j].1)
  {
    if exists j | i <= j < |fields| :: KeyMatches(fields[j].0) || HasStatusKey(fields[j].1) {
      var j :| i <= j < |fields| && (KeyMatches(fields[j].0) || HasStatusKey(fields[j].1));
      if j > i {
        assert i + 1 <= j;
      }
    }
  }

  lemma {:induction false} SearchItemsComplete(obj: Json, i: nat)
    requires obj.JArr? && i <= |obj.items|
    ensures SearchItems(obj, i).Some? <==> exists j | i <= j < |obj.items| :: HasStatusKey(obj.items[j])
    decreases obj, 0, |obj.items| - i
  {
    if i < |obj.items| {
      var item := obj.items[i];
      assert SearchForKeys(item).Some? <==> HasStatusKey(item) by {
        assert item in obj.items;
        SearchForKeysComplete(item);
      }
      assert SearchItems(obj, i + 1).Some? <==> exists j | i + 1 <= j < |obj.items| :: HasStatusKey(obj.items[j]) by {
        SearchItemsComplete(obj, i + 1);
      }
      SomeItemFrom(obj.items, i);
      SearchItemsStep(obj, i);
    }
  }

  /** One step of the list scan: the item's own search, else the rest of the list. */
  lemma SearchItemsStep(obj: Json, i: nat)
    requires obj.JArr? && i < |obj.items|
    ensures SearchItems(obj, i).Some? <==> SearchForKeys(obj.items[i]).Some? || SearchItems(obj, i + 1).Some?
  {
  }

  /** Some item from i on has a status key iff item i has one or some item after it does. */
  lemma SomeItemFrom(items: seq<Json>, i: nat)
    requires i < |items|
    ensures (exists j | i <= j < |items| :: HasStatusKey(items[j]))
      <==> HasStatusKey(items[i]) || exists j | i + 1 <= j < |items| :: HasStatusKey(items[j])
  {
    if exists j | i <= j < |items| :: HasStatusKey(items[j]) {
      var j :| i <= j < |items| && HasStatusKey(items[j]);
      if j > i {
        assert i + 1 <= j;
      }
    }
  }

  // ---------------------------------------------------------------------------
  // retry_on_failure
  // ---------------------------------------------------------------------------

  /** How a decorated call ended: a value, a raised exception, or None after no attempt. */
  datatype Outcome<+T> = Returned(value: T) | Raised(error: PyError) | ReturnedNone

  function Pow(b: nat, e: nat): nat {
    if e == 0 then 1 else b * Pow(b, e - 1)
  }

  /**
    The attempt loop of retry_on_failure.  `call(a)` is what the wrapped
    function does on attempt a, `retryable` the exception classes the
    decorator catches; `waits` lists the sleeps between attempts.
  */
  method RetryOnFailure<T>(maxRetries: int, backoff: nat, call: nat -> Result<T>, retryable: PyError -> bool)
    returns (r: Outcome<T>, calls: nat, waits: seq<nat>)
    ensures maxRetries <= 0 ==> r == ReturnedNone && calls == 0
    ensures maxRetries > 0 ==> 1 <= calls <= maxRetries
    ensures |waits| == if calls == 0 then 0 else calls - 1
    ensures forall a :: 0 <= a < |waits| ==> waits[a] == Pow(backoff, a)
    ensures forall a :: 0 <= a < calls - 1 ==> call(a).Err? && retryable(call(a).error)
    ensures calls > 0 && call(calls - 1).Ok? ==> r == Returned(call(calls - 1).value)
    ensures calls > 0 && call(calls - 1).Err? ==>
      r == Raised(call(calls - 1).error) && (retryable(call(calls - 1).error) ==> calls == maxRetries)
  {
    r := ReturnedNone;
    calls := 0;
    waits := [];
    var attempt: nat := 0;
    while attempt < maxRetries
      invariant calls == attempt && |waits| == attempt
      invariant maxRetries > 0 ==> attempt < maxRetries
      invariant maxRetries <= 0 ==> attempt == 0
      invariant forall a :: 0 <= a < attempt ==> waits[a] == Pow(backoff, a)
      invariant forall a :: 0 <= a < attempt ==> call(a).Err? && retryable(call(a).error)
      decreases maxRetries - attempt
    {
      var out := call(attempt);
      calls := calls + 1;
      if out.Ok? {
        r := Returned(out.value);
        return;
      }
      if !retryable(out.error) || attempt == maxRetries - 1 {
        r := Raised(out.error);
        return;
      }
      waits := waits + [Pow(backoff, attempt)];
      attempt := attempt + 1;
    }
  }

  // ---------------------------------------------------------------------------
  // search_media
  // ---------------------------------------------------------------------------

  /** One entry of the parsed search results. */
  datatype SearchHit = SearchHit(
    id: Json, title: Json, posterPath: Json, releaseDate: Json,
    firstAirDate: Json, voteAverage: Json, overview: Json)

  /** The dict built for a matching result: tmdbId before id, title before name. */
  function ToHit(r: Json): SearchHit
    requires r.JObj?
  {
    SearchHit(
      GetOr(r, "tmdbId", Get(r, "id")),
      Or(Get(r, "title"), Get(r, "name")),
      Get(r, "posterPath"), Get(r, "releaseDate"), Get(r, "firstAirDate"),
      Get(r, "voteAverage"), Get(r, "overview"))
  }

  predicate IsOfType(r: Json, mediaType: string)
    requires r.JObj?
  {
    Get(r, "mediaType") == JStr(mediaType)
  }

  /** The parsed list after the first n results (the loop's running value). */
  function HitsUpTo(results: seq<Json>, mediaType: string, n: nat): Result<seq<SearchHit>>
    requires n <= |results|
  {
    if n == 0 then Ok([])
    else
      match HitsUpTo(results, mediaType, n - 1)
      case Err(e) => Err(e)
      case Ok(prev) => AddHit(prev, results[n - 1], mediaType)
  }

  /** One pass of the loop: a non-dict result raises, a result of the type is appended. */
  function AddHit(prev: seq<SearchHit>, r: Json, mediaType: string): Result<seq<SearchHit>> {
    if !r.JObj? then Err(AttributeError)
    else if IsOfType(r, mediaType) then Ok(prev + [ToHit(r)])
    else Ok(prev)
  }

  /**
    The loop raises AttributeError iff a result that is not a dict is met,
    and otherwise every hit is the mapping of a result of the requested type.
  */
  lemma {:induction false} HitsUpToSound(results: seq<Json>, mediaType: string, n: nat)
    requires n <= |results|
    ensures var h := HitsUpTo(results, mediaType, n);
      && (h.Err? <==> exists i | 0 <= i < n :: !results[i].JObj?)
      && (h.Err? ==> h.error == AttributeError)
      && (h.Ok? ==> |h.value| <= n)
      && (h.Ok? ==> forall x :: x in h.value ==>
            exists i | 0 <= i < n :: results[i].JObj? && IsOfType(results[i], mediaType) && x == ToHit(results[i]))
  {
    if n > 0 {
      HitsUpToSound(results, mediaType, n - 1);
      var prev := HitsUpTo(results, mediaType, n - 1);
      var r := results[n - 1];
      if prev.Ok? && r.JObj? && IsOfType(r, mediaType) {
        forall x | x in prev.value + [ToHit(r)]
          ensures exists i | 0 <= i < n :: results[i].JObj? && IsOfType(results[i], mediaType) && x == ToHit(results[i])
        {
          if x !in prev.value {
            assert x == ToHit(results[n - 1]);
          }
        }
      }
    }
  }

  /** What search_media returns for a decoded response body. */
  function SearchResults(body: Json, mediaType: string): Result<seq<SearchHit>> {
    match DictGetOr(body, "results", JArr([]))
    case Err(e) => Err(e)
    case Ok(results) =>
      match Iter(results)
      case Err(e) => Err(e)
      case Ok(items) => HitsUpTo(items, mediaType, |items|)
  }

  /** Every result of the requested media type becomes one hit, in order. */
  lemma {:induction false} HitsKeepMatching(results: seq<Json>, mediaType: string, n: nat, i: nat)
    requires i < n <= |results|
    requires forall j | 0 <= j < n :: results[j].JObj?
    requires IsOfType(results[i], mediaType)
    ensures HitsUpTo(results, mediaType, n).Ok? && ToHit(results[i]) in HitsUpTo(results, mediaType, n).value
  {
    var before := HitsUpTo(results, mediaType, n - 1);
    assert before.Ok? && (i < n - 1 ==> ToHit(results[i]) in before.value) by {
      if i < n - 1 {
        HitsKeepMatching(results, mediaType, n - 1, i);
      } else {
        HitsUpToSound(results, mediaType, n - 1);
      }
    }
    assert HitsUpTo(results, mediaType, n) == AddHit(before.value, results[n - 1], mediaType);
    AddHitKeeps(before.value, results[n - 1], mediaType, ToHit(results[i]));
  }

  /** A dict result never raises, keeps the hits so far, and adds its own when it has the type. */
  lemma AddHitKeeps(prev: seq<SearchHit>, r: Json, mediaType: string, x: SearchHit)
    requires r.JObj?
    requires x in prev || (IsOfType(r, mediaType) && x == ToHit(r))
    ensures AddHit(prev, r, mediaType).Ok? && x in AddHit(prev, r, mediaType).value
  {
  }

  /** search_media: filter the results by media type and map each to a hit. */
  method SearchMedia(body: Json, mediaType: string) returns (r: Result<seq<SearchHit>>)
    ensures r == SearchResults(body, mediaType)
  {
    if !body.JObj? {
      return Err(AttributeError);
    }
    var results := GetOr(body, "results", JArr([]));
    var it := Iter(results);
    if it.Err? {
      return Err(it.error);
    }
    var items := it.value;
    assert SearchResults(body, mediaType) == HitsUpTo(items, mediaType, |items|);
    r := ParseHits(items, mediaType);
  }

  /** The loop of search_media over the result list. */
  method ParseHits(items: seq<Json>, mediaType: string) returns (r: Result<seq<SearchHit>>)
    ensures r == HitsUpTo(items, mediaType, |items|)
  {
    var parsed: seq<SearchHit> := [];
    var i := 0;
    while i < |items|
      invariant 0 <= i <= |items|
      invariant HitsUpTo(items, mediaType, i) == Ok(parsed)
    {
      var step := AddHit(parsed, items[i], mediaType);
      if step.Err? {
        HitsErrorStays(items, mediaType, i, |items|);
        return step;
      }
      parsed := step.value;
      i := i + 1;
    }
    return Ok(parsed);
  }

  /** Once a result that is not a dict is reached, the parse ends in AttributeError. */
  lemma HitsErrorStays(results: seq<Json>, mediaType: string, i: nat, n: nat)
    requires i < n <= |results| && !results[i].JObj?
    ensures HitsUpTo(results, mediaType, n) == Err(AttributeError)
  {
    HitsUpToSound(results, mediaType, n);
    assert 0 <= i < n && !results[i].JObj?;
  }
}
