/**
  health_check.py: the BotHealthStatus singleton and its counters, the
  status report and its uptime text, and the path routing of the HTTP
  handler.  Clock readings are whole seconds passed in by the caller; the
  server thread and the JSON encoding are left out.
*/
module HealthCheck {
  import opened Wrappers
  import opened PyText

  // ---------------------------------------------------------------------------
  // _format_uptime
  // ---------------------------------------------------------------------------

  const SecondsPerDay: nat := 86400
  const SecondsPerHour: nat := 3600
  const SecondsPerMinute: nat := 60

  /**
    An hour divides a day, so the minutes part can be read off the remainder by a day.
    (Python's floor `//` and `%` by a positive divisor are Dafny's Euclidean ones.)
  */
  lemma HourOfDayRemainder(s: int)
    ensures s % SecondsPerHour == (s % SecondsPerDay) % SecondsPerHour
    ensures (s % SecondsPerDay) / SecondsPerHour < 24
  {
    var d, rem := s / SecondsPerDay, s % SecondsPerDay;
    assert s == d * SecondsPerDay + rem;
    assert d * SecondsPerDay == (d * 24) * SecondsPerHour;
    var h := rem / SecondsPerHour;
    assert rem == h * SecondsPerHour + rem % SecondsPerHour;
    assert s == (d * 24 + h) * SecondsPerHour + rem % SecondsPerHour;
  }

  /** Whole days, hours of the day and minutes of the hour of an uptime. */
  function UptimeParts(seconds: int): (r: (int, nat, nat))
    ensures r.1 < 24 && r.2 < 60
    ensures seconds >= 0 ==> r.0 >= 0
    ensures r.0 * SecondsPerDay + r.1 * SecondsPerHour + r.2 * SecondsPerMinute <= seconds
    ensures seconds < r.0 * SecondsPerDay + r.1 * SecondsPerHour + r.2 * SecondsPerMinute + SecondsPerMinute
  {
    var days := seconds / SecondsPerDay;
    var hours := (seconds % SecondsPerDay) / SecondsPerHour;
    var minutes := (seconds % SecondsPerHour) / SecondsPerMinute;
    HourOfDayRemainder(seconds);
    var rem := seconds % SecondsPerDay;
    assert seconds == days * SecondsPerDay + rem;
    assert rem == hours * SecondsPerHour + seconds % SecondsPerHour;
    var under := seconds % SecondsPerHour;
    assert under == minutes * SecondsPerMinute + under % SecondsPerMinute;
    (days, hours, minutes)
  }

  /** `f"{days}d {hours}h {minutes}m"` */
  function FormatUptime(seconds: int): (r: string)
    ensures Split(r, ' ') == [IntToString(UptimeParts(seconds).0) + "d",
                              IntToString(UptimeParts(seconds).1) + "h",
                              IntToString(UptimeParts(seconds).2) + "m"]
  {
    var parts := UptimeParts(seconds);
    var pieces := [IntToString(parts.0) + "d", IntToString(parts.1) + "h", IntToString(parts.2) + "m"];
    NoSpace(parts.0, 'd');
    NoSpace(parts.1, 'h');
    NoSpace(parts.2, 'm');
    SplitJoin(pieces, ' ');
    assert pieces[1..][1..] == [pieces[2]];
    Join(pieces, ' ')
  }

  lemma NoSpace(n: int, unit: char)
    requires unit != ' '
    ensures ' ' !in IntToString(n) + [unit]
  {
    var s := IntToString(n);
    assert forall i | 0 <= i < |s| :: s[i] == '-' || IsDigit(s[i]) by {
      DigitsOrSign(n);
    }
  }

  lemma DigitsOrSign(n: int)
    ensures var s := IntToString(n); forall i | 0 <= i < |s| :: s[i] == '-' || IsDigit(s[i])
  {
    if n < 0 {
      var t := NatToString(-n);
      assert IntToString(n) == "-" + t;
      assert forall i | 0 < i < |t| + 1 :: ("-" + t)[i] == t[i - 1];
    }
  }

  // ---------------------------------------------------------------------------
  // BotHealthStatus
  // ---------------------------------------------------------------------------

  /** get_status's dictionary. */
  datatype StatusReport = StatusReport(
    status: string,
    uptimeSeconds: int,
    uptimeHuman: string,
    lastActivityAgoSeconds: int,
    totalRequests: nat,
    apiErrors: nat,
    timestamp: string)

  /** The status word of the report. */
  function StatusWord(healthy: bool): (r: string)
    ensures r == "healthy" <==> healthy
    ensures r == "healthy" || r == "unhealthy"
  {
    if healthy then "healthy" else "unhealthy"
  }

  class BotHealthStatus {
    var startTime: int
    var lastActivity: int
    var totalRequests: nat
    var apiErrors: nat
    var isHealthy: bool

    /** The first-call initialisation in __new__. */
    constructor (now: int)
      ensures startTime == now && lastActivity == now
      ensures totalRequests == 0 && apiErrors == 0 && isHealthy
    {
      startTime := now;
      lastActivity := now;
      totalRequests := 0;
      apiErrors := 0;
      isHealthy := true;
    }

    method UpdateActivity(now: int)
      modifies this
      ensures lastActivity == now
      ensures startTime == old(startTime) && totalRequests == old(totalRequests)
      ensures apiErrors == old(apiErrors) && isHealthy == old(isHealthy)
    {
      lastActivity := now;
    }

    method IncrementRequests()
      modifies this
      ensures totalRequests == old(totalRequests) + 1
      ensures startTime == old(startTime) && lastActivity == old(lastActivity)
      ensures apiErrors == old(apiErrors) && isHealthy == old(isHealthy)
    {
      totalRequests := totalRequests + 1;
    }

    method IncrementErrors()
      modifies this
      ensures apiErrors == old(apiErrors) + 1
      ensures startTime == old(startTime) && lastActivity == old(lastActivity)
      ensures totalRequests == old(totalRequests) && isHealthy == old(isHealthy)
    {
      apiErrors := apiErrors + 1;
    }

    /** get_status at clock reading `now`. */
    function GetStatus(now: int, isoNow: string): (r: StatusReport)
      reads this
      ensures r.status == "healthy" <==> isHealthy
      ensures r.uptimeSeconds == now - startTime && r.lastActivityAgoSeconds == now - lastActivity
      ensures r.totalRequests == totalRequests && r.apiErrors == apiErrors
    {
      StatusReport(StatusWord(isHealthy), now - startTime, FormatUptime(now - startTime),
                   now - lastActivity, totalRequests, apiErrors, isoNow)
    }
  }

  /** The class attribute `_instance`. */
  class HealthRegistry {
    var instance: BotHealthStatus?

    constructor ()
      ensures instance == null
    {
      instance := null;
    }

    /** BotHealthStatus(): the one instance, created and initialised on the first call only. */
    method Get(now: int) returns (h: BotHealthStatus)
      modifies this
      ensures old(instance) != null ==> h == old(instance)
      ensures old(instance) == null ==>
        && fresh(h) && h.startTime == now && h.lastActivity == now
        && h.totalRequests == 0 && h.apiErrors == 0 && h.isHealthy
      ensures instance == h
    {
      if instance == null {
        instance := new BotHealthStatus(now);
      }
      h := instance;
    }

    /** Two calls give the same object, whose fields the second call leaves alone. */
    method GetTwice(now1: int, now2: int) returns (h1: BotHealthStatus, h2: BotHealthStatus)
      modifies this
      ensures h1 == h2 && instance == h1
      ensures old(instance) == null ==> h2.startTime == now1
    {
      h1 := Get(now1);
      h2 := Get(now2);
    }
  }

  // ---------------------------------------------------------------------------
  // HealthCheckHandler.do_GET
  // ---------------------------------------------------------------------------

  predicate IsHealthPath(path: string) {
    path == "/health" || path == "/"
  }

  /** do_GET: 200 with the status report for "/health" and "/", 404 with no body otherwise. */
  method DoGet(registry: HealthRegistry, path: string, now: int, isoNow: string) returns (code: int, body: Option<StatusReport>)
    modifies registry
    ensures code == 200 <==> IsHealthPath(path)
    ensures code == 200 || code == 404
    ensures !IsHealthPath(path) ==> body.None? && registry.instance == old(registry.instance)
    ensures IsHealthPath(path) ==> registry.instance != null && body == Some(registry.instance.GetStatus(now, isoNow))
  {
    if IsHealthPath(path) {
      var h := registry.Get(now);
      code, body := 200, Some(h.GetStatus(now, isoNow));
    } else {
      code, body := 404, None;
    }
  }
}
