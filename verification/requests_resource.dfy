/**
 * `WMPRRequestsRestResource`: the `/recent` feed. It resolves the project's
 * query, parses it with one fallback to the default query, runs the search
 * for the first ten issues, maps each issue to a `ServiceDeskRequest` (a
 * failing issue is skipped), and answers with JSON plus diagnostics. Every
 * answer carries the request id `WMPR-<startTime>`.
 */
module RequestsResource {
  import opened Wrappers
  import opened JavaStrings
  import opened Jira
  import opened PluginSettings
  import opened ServiceDeskRequests

  /** The search window: offset 0, at most ten issues. */
  const PageOffset: nat := 0
  const PageSize: nat := 10

  const Version: string := "1.0.0-optimized"

  /** `max-age` of every response, in seconds. */
  const MaxAgeSeconds: nat := 30

  // ---------------------------------------------------------------- query resolution

  /**
   * The settings select `text` as the project's query: the key is present and
   * not blank, the store could be read, the `.jql` entry is the String `text`,
   * the `.useCustom` flag decodes to true, and `text` is not blank.
   */
  predicate SelectsCustom(projectKey: JString, settings: Option<Entries>, text: string)
  {
    && !IsNullOrBlank(projectKey)
    && settings.Some?
    && Lookup(settings.value, JqlKey(projectKey.value)) == Some(StringValue(text))
    && DecodeUseCustom(Lookup(settings.value, UseCustomKey(projectKey.value)))
    && !IsBlank(text)
  }

  /**
   * `getConfiguredJql`. `settings` is None when the store cannot be read. A
   * blank key answers the default without looking at the store; a `.jql`
   * entry that is not a String makes the cast throw, which also answers the
   * default. The custom text is returned as stored, untrimmed.
   */
  function ConfiguredJql(projectKey: JString, settings: Option<Entries>): (jql: string)
    ensures !IsBlank(jql)
    ensures IsNullOrBlank(projectKey) ==> jql == DefaultJql
    ensures jql == DefaultJql || SelectsCustom(projectKey, settings, jql)
    ensures forall text | SelectsCustom(projectKey, settings, text) :: jql == text
  {
    DefaultJqlNotBlank();
    if IsNullOrBlank(projectKey) then DefaultJql
    else
      match settings
      case None => DefaultJql
      case Some(entries) =>
        match CastToString(Lookup(entries, JqlKey(projectKey.value)))
        case CastFails => DefaultJql
        case CastOk(configured) =>
          if DecodeUseCustom(Lookup(entries, UseCustomKey(projectKey.value)))
             && configured.Some? && !IsBlank(configured.value)
          then configured.value
          else DefaultJql
  }

  /** Encoding tolerance: a flag stored as the Boolean true and one stored as the String "true" resolve alike. */
  lemma FlagEncodingsResolveAlike(projectKey: string, entries: Entries)
    ensures ConfiguredJql(Some(projectKey), Some(entries[UseCustomKey(projectKey) := BoolValue(true)]))
         == ConfiguredJql(Some(projectKey), Some(entries[UseCustomKey(projectKey) := StringValue("true")]))
  {
  }

  /** A flag stored in any other spelling, "TRUE" included, selects the default. */
  lemma OtherFlagSpellingsSelectDefault(projectKey: string, entries: Entries, flag: string)
    requires flag != "true"
    ensures ConfiguredJql(Some(projectKey), Some(entries[UseCustomKey(projectKey) := StringValue(flag)])) == DefaultJql
  {
  }

  // ---------------------------------------------------------------- issues and their mapping

  datatype Person = Person(displayName: JString)
  datatype StatusCategory = StatusCategory(key: JString)
  datatype Status = Status(name: JString, category: Option<StatusCategory>)

  /**
   * Whether reading an issue throws while it is mapped. `FieldThrows`: some
   * accessor other than `getKey()` throws, so the entry is skipped.
   * `KeyThrows`: `getKey()` throws; the handler that skips the entry calls
   * `getKey()` again for its log line, so the exception leaves the loop.
   */
  datatype Fault = Clean | FieldThrows(error: Exception) | KeyThrows(error: Exception)

  /** An issue as the search returns it; `created` is the timestamp's `toString()`. */
  datatype RawIssue = RawIssue(
    key: JString,
    summary: JString,
    reporter: Option<Person>,
    created: Option<string>,
    status: Option<Status>,
    fault: Fault)

  /** The fields a cleanly read issue yields, with the defaults for missing parts. */
  function ToFields(issue: RawIssue): (f: RequestFields)
    ensures f.key == issue.key && f.summary == issue.summary
    ensures issue.reporter.None? ==> f.reporter == Some("Unknown")
    ensures issue.reporter.Some? ==> f.reporter == issue.reporter.value.displayName
    ensures issue.created.None? ==> f.created == Some("")
    ensures issue.created.Some? ==> f.created == issue.created
    ensures issue.status.None? ==> f.status == Some("Unknown") && f.statusCategory == Some("unknown")
    ensures issue.status.Some? ==> f.status == issue.status.value.name
    ensures issue.status.Some? && issue.status.value.category.None? ==> f.statusCategory == Some("unknown")
    ensures issue.status.Some? && issue.status.value.category.Some? ==> f.statusCategory == issue.status.value.category.value.key
    ensures f.created.Some?
  {
    RequestFields(
      issue.key,
      issue.summary,
      if issue.reporter.Some? then issue.reporter.value.displayName else Some("Unknown"),
      if issue.created.Some? then issue.created else Some(""),
      if issue.status.Some? then issue.status.value.name else Some("Unknown"),
      if issue.status.Some? && issue.status.value.category.Some?
      then issue.status.value.category.value.key else Some("unknown"))
  }

  /** The requests emitted for `issues`: one per cleanly read issue, in order. */
  function MapAll(issues: seq<RawIssue>): (r: seq<RequestFields>)
    ensures |r| <= |issues|
  {
    if issues == [] then []
    else
      var last := issues[|issues| - 1];
      MapAll(issues[..|issues| - 1]) + (if last.fault.Clean? then [ToFields(last)] else [])
  }

  /** Positions of the cleanly read issues, in increasing order. */
  function Kept(issues: seq<RawIssue>): (ks: seq<nat>)
    ensures forall k | 0 <= k < |ks| :: ks[k] < |issues| && issues[ks[k]].fault.Clean?
    ensures forall k, l | 0 <= k < l < |ks| :: ks[k] < ks[l]
    ensures forall i | 0 <= i < |issues| && issues[i].fault.Clean? :: i in ks
  {
    if issues == [] then []
    else
      var n := |issues| - 1;
      Kept(issues[..n]) + (if issues[n].fault.Clean? then [n] else [])
  }

  /**
   * The emitted requests are an order-preserving subsequence of the issues:
   * the k-th request is the mapping of the k-th cleanly read issue, and every
   * cleanly read issue yields one.
   */
  lemma {:induction false} MapAllIsOrderedSubsequence(issues: seq<RawIssue>)
    ensures |MapAll(issues)| == |Kept(issues)|
    ensures forall k | 0 <= k < |Kept(issues)| :: MapAll(issues)[k] == ToFields(issues[Kept(issues)[k]])
  {
    if issues != [] {
      var n := |issues| - 1;
      var front := issues[..n];
      MapAllIsOrderedSubsequence(front);
      var m, ks := MapAll(issues), Kept(issues);
      var mf, kf := MapAll(front), Kept(front);
      assert m == mf + (if issues[n].fault.Clean? then [ToFields(issues[n])] else []);
      assert ks == kf + (if issues[n].fault.Clean? then [n] else []);
      forall k | 0 <= k < |ks|
        ensures m[k] == ToFields(issues[ks[k]])
      {
        if k < |kf| {
          assert m[k] == mf[k] && ks[k] == kf[k];
          assert issues[kf[k]] == front[kf[k]];
        } else {
          assert m[k] == ToFields(issues[n]) && ks[k] == n;
        }
      }
    }
  }

  /** Nothing is dropped exactly when every issue was read cleanly. */
  lemma {:induction false} MapAllDropsOnlyFaulty(issues: seq<RawIssue>)
    ensures |MapAll(issues)| == |issues| <==> forall i | 0 <= i < |issues| :: issues[i].fault.Clean?
  {
    if issues != [] {
      var n := |issues| - 1;
      MapAllDropsOnlyFaulty(issues[..n]);
      if |MapAll(issues)| == |issues| {
        assert |MapAll(issues[..n])| == n;
        forall i | 0 <= i < |issues| ensures issues[i].fault.Clean? {
          if i < n {
            assert issues[i] == issues[..n][i];
          }
        }
      }
      if forall i | 0 <= i < |issues| :: issues[i].fault.Clean? {
        assert forall i | 0 <= i < n :: issues[..n][i].fault.Clean?;
      }
    }
  }

  /** No issue makes the loop itself throw. */
  predicate NoKeyFault(issues: seq<RawIssue>)
  {
    forall i | 0 <= i < |issues| :: !issues[i].fault.KeyThrows?
  }

  // ---------------------------------------------------------------- responses

  datatype Diagnostics = Diagnostics(
    requestId: string,
    timestamp: string,
    duration: int,
    user: string,
    jql: string,
    resultCount: nat,
    version: string)

  /** What a response body says, before serialisation. */
  datatype Payload =
    | Unauthorized(requestId: string)
    | InvalidQuery(requestId: string)
    | InternalError(error: string, requestId: string, duration: int, errorType: string)
    | Feed(data: seq<RequestFields>, diagnostics: Diagnostics)

  function RequestIdOf(p: Payload): string
  {
    match p
    case Unauthorized(id) => id
    case InvalidQuery(id) => id
    case InternalError(_, id, _, _) => id
    case Feed(_, d) => d.requestId
  }

  function StatusOf(p: Payload): nat
  {
    match p
    case Unauthorized(_) => 401
    case InvalidQuery(_) => 400
    case InternalError(_, _, _, _) => 500
    case Feed(_, _) => 200
  }

  /** `"WMPR-" + startTime`. */
  function RequestId(startTime: nat): string
  {
    "WMPR-" + DecimalString(startTime)
  }

  /** A request id is plain ASCII: a fixed prefix and decimal digits. */
  lemma RequestIdIsAscii(startTime: nat)
    ensures IsAscii(RequestId(startTime))
  {
    AsciiConcat("WMPR-", DecimalString(startTime));
  }

  /** Requests started at different milliseconds get different ids. */
  lemma RequestIdInjective(t1: nat, t2: nat)
    requires RequestId(t1) == RequestId(t2)
    ensures t1 == t2
  {
    var p := "WMPR-";
    assert DecimalString(t1) == RequestId(t1)[|p|..] == RequestId(t2)[|p|..] == DecimalString(t2);
    DecimalStringInjective(t1, t2);
  }

  /** The hand-written error body `{"error":"<message>","requestId":"<id>"}`. */
  function ErrorBody(message: string, requestId: string): string
  {
    "{\"error\":\"" + message + "\",\"requestId\":\"" + requestId + "\"}"
  }

  /** An error body built from ASCII parts is ASCII. */
  lemma ErrorBodyIsAscii(message: string, requestId: string)
    requires IsAscii(message) && IsAscii(requestId)
    ensures IsAscii(ErrorBody(message, requestId))
  {
    var open, mid, close := "{\"error\":\"", "\",\"requestId\":\"", "\"}";
    assert IsAscii(open) && IsAscii(mid) && IsAscii(close);
    AsciiConcat(open, message);
    AsciiConcat(open + message, mid);
    AsciiConcat(open + message + mid, requestId);
    AsciiConcat(open + message + mid + requestId, close);
  }

  /**
   * The response text. The 401 and 400 bodies are written by hand; the 200
   * and 500 bodies go through the JSON serialiser, which is a parameter.
   */
  function EntityOf(p: Payload, toJson: Payload -> string): string
  {
    match p
    case Unauthorized(id) => ErrorBody("Authentication required", id)
    case InvalidQuery(id) => ErrorBody("Invalid JQL query", id)
    case _ => toJson(p)
  }

  datatype CacheControl = CacheControl(maxAge: nat, noCache: bool, mustRevalidate: bool)

  datatype HttpResponse = HttpResponse(
    status: nat,
    entity: string,
    mediaType: string,
    cacheControl: CacheControl,
    headers: seq<(string, string)>)

  /** The value of the first header named `name`. */
  function HeaderValue(headers: seq<(string, string)>, name: string): Option<string>
  {
    if headers == [] then None
    else if headers[0].0 == name then Some(headers[0].1)
    else HeaderValue(headers[1..], name)
  }

  /**
   * `createOptimizedResponse`: an explicit `Content-Length` equal to the
   * entity's byte length, a 30-second `max-age`, and the fixed CORS and
   * proxy headers.
   */
  function OptimizedResponse(entity: string, status: nat): (r: HttpResponse)
    ensures r.status == status && r.entity == entity
    ensures HeaderValue(r.headers, "Content-Length") == Some(DecimalString(Utf8Length(entity)))
    ensures r.cacheControl.maxAge == MaxAgeSeconds && !r.cacheControl.noCache
    ensures HeaderValue(r.headers, "Access-Control-Allow-Origin") == Some("*")
  {
    HttpResponse(
      status,
      entity,
      "application/json",
      CacheControl(MaxAgeSeconds, false, false),
      [("Content-Length", DecimalString(Utf8Length(entity))),
       ("Access-Control-Allow-Origin", "*"),
       ("Access-Control-Allow-Methods", "GET, OPTIONS"),
       ("Access-Control-Allow-Headers", "Content-Type, Authorization"),
       ("X-Content-Type-Options", "nosniff"),
       ("X-Frame-Options", "SAMEORIGIN"),
       ("Pragma", "no-cache"),
       ("Expires", "0")])
  }

  /** The hand-written 401 and 400 bodies are ASCII, so their `Content-Length` is their character count. */
  lemma ErrorBodyLengthIsCharCount(p: Payload, toJson: Payload -> string, startTime: nat)
    requires p == Unauthorized(RequestId(startTime)) || p == InvalidQuery(RequestId(startTime))
    ensures Utf8Length(EntityOf(p, toJson)) == |EntityOf(p, toJson)|
  {
    RequestIdIsAscii(startTime);
    if p.Unauthorized? {
      assert IsAscii("Authentication required");
      ErrorBodyIsAscii("Authentication required", p.requestId);
    } else {
      assert IsAscii("Invalid JQL query");
      ErrorBodyIsAscii("Invalid JQL query", p.requestId);
    }
    Utf8LengthIsCharCountIffAscii(EntityOf(p, toJson));
  }

  /** `createDiagnostics`; `endTime` is the clock reading taken for the duration, `now` the rendered wall-clock date. */
  function CreateDiagnostics(requestId: string, startTime: nat, endTime: int, now: string, user: User, jql: string, resultCount: nat): (d: Diagnostics)
    ensures d.requestId == requestId && d.jql == jql && d.resultCount == resultCount
    ensures d.duration == endTime - startTime && d.version == Version
    ensures d.user == user.name && d.timestamp == now
  {
    Diagnostics(requestId, now, endTime - startTime, user.name, jql, resultCount, Version)
  }

  /** The 500 body built by the top-level handler. */
  function Failure(e: Exception, requestId: string, startTime: nat, endTime: int): (p: Payload)
    ensures p.InternalError? && p.requestId == requestId && p.errorType == e.typeName
    ensures p.duration == endTime - startTime
    ensures p.error == "Failed to fetch WMPR requests: " + Show(e.message)
  {
    InternalError("Failed to fetch WMPR requests: " + Show(e.message), requestId, endTime - startTime, e.typeName)
  }

  /** The mapping loop ends by throwing `e`: the first issue whose `getKey()` throws does so with `e`. */
  predicate LoopThrows(issues: seq<RawIssue>, e: Exception)
  {
    exists i | 0 <= i < |issues| :: issues[i].fault == KeyThrows(e) && NoKeyFault(issues[..i])
  }

  /** The exception that ends the mapping loop: that of the first issue whose `getKey()` throws, if any. */
  function FirstKeyFault(issues: seq<RawIssue>): (r: Option<Exception>)
    ensures r.None? <==> NoKeyFault(issues)
    ensures r.Some? ==> LoopThrows(issues, r.value)
  {
    if issues == [] then None
    else if issues[0].fault.KeyThrows? then
      assert NoKeyFault(issues[..0]);
      Some(issues[0].fault.error)
    else
      var r := FirstKeyFault(issues[1..]);
      assert forall i | 1 <= i < |issues| :: issues[i] == issues[1..][i - 1];
      if r.Some? then
        var i :| 0 <= i < |issues[1..]| && issues[1..][i].fault == KeyThrows(r.value) && NoKeyFault(issues[1..][..i]);
        assert issues[i + 1].fault == KeyThrows(r.value) && NoKeyFault(issues[..i + 1]);
        r
      else r
  }

  /** An issue whose `getKey()` throws, after none that did, is the first key fault. */
  lemma {:induction false} FirstKeyFaultAt(issues: seq<RawIssue>, i: nat)
    requires i < |issues| && issues[i].fault.KeyThrows? && NoKeyFault(issues[..i])
    ensures FirstKeyFault(issues) == Some(issues[i].fault.error)
  {
    if i > 0 {
      assert issues[..i][0] == issues[0];
      FirstKeyFaultAt(issues[1..], i - 1);
    }
  }

  /**
   * The mapping loop of `getRecentWMPRRequests`: a fresh `ServiceDeskRequest`
   * per issue, filled through its setters and appended; an issue whose
   * reading throws is skipped, unless the exception comes from `getKey()`,
   * which the handler calls again and which then ends the loop.
   */
  method MapIssues(issues: seq<RawIssue>) returns (requests: seq<RequestFields>, thrown: Option<Exception>)
    ensures thrown == FirstKeyFault(issues)
    ensures thrown.None? ==> requests == MapAll(issues)
  {
    requests := [];
    var i := 0;
    while i < |issues|
      invariant 0 <= i <= |issues|
      invariant requests == MapAll(issues[..i])
      invariant NoKeyFault(issues[..i])
    {
      var issue := issues[i];
      if issue.fault.KeyThrows? {
        // the handler's own getKey() throws again, out of the loop
        FirstKeyFaultAt(issues, i);
        thrown := Some(issue.fault.error);
        return;
      } else if issue.fault.Clean? {
        var request := new ServiceDeskRequest.Empty();
        request.SetKey(issue.key);
        request.SetSummary(issue.summary);
        request.SetReporter(if issue.reporter.Some? then issue.reporter.value.displayName else Some("Unknown"));
        request.SetCreated(if issue.created.Some? then issue.created else Some(""));
        request.SetStatus(if issue.status.Some? then issue.status.value.name else Some("Unknown"));
        request.SetStatusCategory(
          if issue.status.Some? && issue.status.value.category.Some?
          then issue.status.value.category.value.key else Some("unknown"));
        requests := requests + [request.Fields()];
      }
      // otherwise (FieldThrows) the entry is skipped; the handler only logs
      assert issues[..i + 1] == issues[..i] + [issue];
      i := i + 1;
    }
    assert issues[..i] == issues;
    thrown := None;
  }

  // ---------------------------------------------------------------- the pipeline

  /**
   * The host services one request sees: the logged-in user, a snapshot of the
   * settings store (None when it cannot be read), `parseQuery(user, text)`
   * reduced to `isValid()`, `search(user, query, PagerFilter(offset, limit))`
   * reduced to its result list, and the JSON serialiser.
   */
  datatype Host = Host(
    user: Option<User>,
    settings: Option<Entries>,
    parse: string -> Call<bool>,
    search: (string, nat, nat) -> Call<seq<RawIssue>>,
    toJson: Payload -> string)

  /** One call into the search service, as the pipeline made it. */
  datatype EngineCall = Parse(jql: string) | Search(jql: string, offset: nat, limit: nat)

  /** The body a request ends with and the calls it made into the search service. */
  datatype Handled = Handled(payload: Payload, calls: seq<EngineCall>)

  /** The query text the search runs with once a user is present and some parse succeeded. */
  function ExecutedJql(host: Host, projectKey: JString): string
  {
    var configured := ConfiguredJql(projectKey, host.settings);
    if host.parse(configured) == Returns(true) then configured else DefaultJql
  }

  /** The outcome once `jql` parsed as valid, after the parse calls `parses`: search, map, diagnose. */
  function SearchOutcome(host: Host, user: User, jql: string, parses: seq<EngineCall>,
                         startTime: nat, endTime: int, now: string): Handled
  {
    var calls := parses + [Search(jql, PageOffset, PageSize)];
    match host.search(jql, PageOffset, PageSize)
    case Throws(e) => Handled(Failure(e, RequestId(startTime), startTime, endTime), calls)
    case Returns(issues) =>
      match FirstKeyFault(issues)
      case Some(e) => Handled(Failure(e, RequestId(startTime), startTime, endTime), calls)
      case None =>
        Handled(Feed(MapAll(issues), CreateDiagnostics(RequestId(startTime), startTime, endTime, now, user, jql, |issues|)),
                calls)
  }

  /**
   * The outcome of `getRecentWMPRRequests` for the given host and inputs:
   * 401 without a user; otherwise parse the resolved query, fall back once to
   * the default text, and search with the first valid one. `startTime` and
   * `endTime` are the two clock readings, `now` the rendered date.
   */
  function Handle(host: Host, projectKey: JString, startTime: nat, endTime: int, now: string): Handled
  {
    var requestId := RequestId(startTime);
    if host.user.None? then Handled(Unauthorized(requestId), [])
    else
      var configured := ConfiguredJql(projectKey, host.settings);
      match host.parse(configured)
      case Throws(e) => Handled(Failure(e, requestId, startTime, endTime), [Parse(configured)])
      case Returns(true) => SearchOutcome(host, host.user.value, configured, [Parse(configured)], startTime, endTime, now)
      case Returns(false) =>
        var parses := [Parse(configured), Parse(DefaultJql)];
        match host.parse(DefaultJql)
        case Throws(e) => Handled(Failure(e, requestId, startTime, endTime), parses)
        case Returns(false) => Handled(InvalidQuery(requestId), parses)
        case Returns(true) => SearchOutcome(host, host.user.value, DefaultJql, parses, startTime, endTime, now)
  }

  /**
   * The decisions of `getRecentWMPRRequests`: the body it serialises and the
   * calls it makes, in the order the source makes them.
   */
  method HandleRequest(host: Host, projectKey: JString, startTime: nat, endTime: int, now: string)
    returns (payload: Payload, calls: seq<EngineCall>)
    ensures Handled(payload, calls) == Handle(host, projectKey, startTime, endTime, now)
  {
    var requestId := RequestId(startTime);
    calls := [];
    if host.user.None? {
      return Unauthorized(requestId), calls;
    }
    var user := host.user.value;

    var jql := ConfiguredJql(projectKey, host.settings);
    calls := calls + [Parse(jql)];
    var parsed := host.parse(jql);
    if parsed.Throws? {
      return Failure(parsed.error, requestId, startTime, endTime), calls;
    }
    if !parsed.value {
      // fall back to the default text and parse once more
      jql := DefaultJql;
      calls := calls + [Parse(jql)];
      parsed := host.parse(jql);
      if parsed.Throws? {
        return Failure(parsed.error, requestId, startTime, endTime), calls;
      }
      if !parsed.value {
        return InvalidQuery(requestId), calls;
      }
    }

    calls := calls + [Search(jql, PageOffset, PageSize)];
    var found := host.search(jql, PageOffset, PageSize);
    if found.Throws? {
      return Failure(found.error, requestId, startTime, endTime), calls;
    }
    var issues := found.value;

    var requests, thrown := MapIssues(issues);
    if thrown.Some? {
      return Failure(thrown.value, requestId, startTime, endTime), calls;
    }
    payload := Feed(requests, CreateDiagnostics(requestId, startTime, endTime, now, user, jql, |issues|));
  }

  /**
   * `getRecentWMPRRequests`: every outcome, the error bodies included, leaves
   * through `createOptimizedResponse`. Besides the response it returns the
   * payload it serialised and the calls it made into the search service.
   */
  method GetRecentRequests(host: Host, projectKey: JString, startTime: nat, endTime: int, now: string)
    returns (response: HttpResponse, payload: Payload, calls: seq<EngineCall>)
    ensures Handled(payload, calls) == Handle(host, projectKey, startTime, endTime, now)
    ensures response == OptimizedResponse(EntityOf(payload, host.toJson), StatusOf(payload))
  {
    payload, calls := HandleRequest(host, projectKey, startTime, endTime, now);
    response := OptimizedResponse(EntityOf(payload, host.toJson), StatusOf(payload));
  }

  // ---------------------------------------------------------------- what the pipeline promises

  /** Every body, error bodies included, carries `"WMPR-" + startTime`. */
  lemma EveryBodyCarriesRequestId(host: Host, projectKey: JString, startTime: nat, endTime: int, now: string)
    ensures RequestIdOf(Handle(host, projectKey, startTime, endTime, now).payload) == RequestId(startTime)
  {
  }

  /** 401 exactly when no user is logged in, and then no query is parsed or searched. */
  lemma UnauthorizedIffNoUser(host: Host, projectKey: JString, startTime: nat, endTime: int, now: string)
    ensures Handle(host, projectKey, startTime, endTime, now).payload.Unauthorized? <==> host.user.None?
    ensures host.user.None? ==> Handle(host, projectKey, startTime, endTime, now).calls == []
  {
  }

  /**
   * The call sequences a request can make: none without a user; one parse
   * that threw; the resolved query parsed valid and searched; the fallback
   * parsed after an invalid first and not valid; or searched after it.
   */
  lemma CallSequences(host: Host, projectKey: JString, startTime: nat, endTime: int, now: string)
    ensures var calls := Handle(host, projectKey, startTime, endTime, now).calls;
      var c := ConfiguredJql(projectKey, host.settings);
      || (host.user.None? && calls == [])
      || (host.user.Some? && host.parse(c).Throws? && calls == [Parse(c)])
      || (host.user.Some? && host.parse(c) == Returns(true) && calls == [Parse(c), Search(c, PageOffset, PageSize)])
      || (host.user.Some? && host.parse(c) == Returns(false) && host.parse(DefaultJql) != Returns(true)
          && calls == [Parse(c), Parse(DefaultJql)])
      || (host.user.Some? && host.parse(c) == Returns(false) && host.parse(DefaultJql) == Returns(true)
          && calls == [Parse(c), Parse(DefaultJql), Search(DefaultJql, PageOffset, PageSize)])
  {
  }

  /**
   * With a user, the first call parses the resolved query, and at most three
   * calls are made; a second parse is of the default text and only follows an
   * invalid first.
   */
  lemma ParsesResolvedQueryFirst(host: Host, projectKey: JString, startTime: nat, endTime: int, now: string)
    requires host.user.Some?
    ensures var calls := Handle(host, projectKey, startTime, endTime, now).calls;
      && 1 <= |calls| <= 3
      && calls[0] == Parse(ConfiguredJql(projectKey, host.settings))
      && (|calls| >= 2 && calls[1].Parse? ==>
            calls[1] == Parse(DefaultJql) && host.parse(calls[0].jql) == Returns(false))
  {
    CallSequences(host, projectKey, startTime, endTime, now);
  }

  /**
   * A search is always the last call, on the window offset 0 / limit 10, right
   * after a parse of the same text that came back valid.
   */
  lemma SearchFollowsValidParse(host: Host, projectKey: JString, startTime: nat, endTime: int, now: string)
    ensures var calls := Handle(host, projectKey, startTime, endTime, now).calls;
      forall k | 0 <= k < |calls| && calls[k].Search? ::
        && k == |calls| - 1 && k >= 1
        && calls[k - 1] == Parse(calls[k].jql) && host.parse(calls[k].jql) == Returns(true)
        && calls[k].offset == PageOffset && calls[k].limit == PageSize
  {
    CallSequences(host, projectKey, startTime, endTime, now);
  }

  /** 400 exactly when the resolved query and the default both parse as invalid; nothing is searched then. */
  lemma InvalidQueryIffBothInvalid(host: Host, projectKey: JString, startTime: nat, endTime: int, now: string)
    ensures var h := Handle(host, projectKey, startTime, endTime, now);
      h.payload.InvalidQuery? <==>
        host.user.Some? && host.parse(ConfiguredJql(projectKey, host.settings)) == Returns(false)
        && host.parse(DefaultJql) == Returns(false)
    ensures var h := Handle(host, projectKey, startTime, endTime, now);
      h.payload.InvalidQuery? ==> h.calls == [Parse(ConfiguredJql(projectKey, host.settings)), Parse(DefaultJql)]
  {
  }

  /**
   * A 200 carries the cleanly mapped issues of the executed query (the
   * fallback text when the resolved one was invalid), with diagnostics naming
   * that query and the raw issue count.
   */
  lemma FeedIsMappedSearch(host: Host, projectKey: JString, startTime: nat, endTime: int, now: string)
    requires Handle(host, projectKey, startTime, endTime, now).payload.Feed?
    ensures var h := Handle(host, projectKey, startTime, endTime, now);
      && host.user.Some? && |h.calls| >= 2
      && h.calls[|h.calls| - 1] == Search(ExecutedJql(host, projectKey), PageOffset, PageSize)
      && host.search(ExecutedJql(host, projectKey), PageOffset, PageSize).Returns?
      && var issues := host.search(ExecutedJql(host, projectKey), PageOffset, PageSize).value;
      && NoKeyFault(issues)
      && h.payload.data == MapAll(issues)
      && h.payload.diagnostics == CreateDiagnostics(RequestId(startTime), startTime, endTime, now,
                                                   host.user.value, ExecutedJql(host, projectKey), |issues|)
  {
  }

  /**
   * A 500 names the exception of the last call into the host: the parse or
   * search that threw, or the first `getKey()` that threw while mapping.
   */
  lemma FailureNamesThrownException(host: Host, projectKey: JString, startTime: nat, endTime: int, now: string)
    requires Handle(host, projectKey, startTime, endTime, now).payload.InternalError?
    ensures var h := Handle(host, projectKey, startTime, endTime, now);
      && host.user.Some? && |h.calls| >= 1
      && match h.calls[|h.calls| - 1]
         case Parse(q) =>
           host.parse(q).Throws? && h.payload == Failure(host.parse(q).error, RequestId(startTime), startTime, endTime)
         case Search(q, o, l) =>
           || (host.search(q, o, l).Throws?
               && h.payload == Failure(host.search(q, o, l).error, RequestId(startTime), startTime, endTime))
           || (host.search(q, o, l).Returns?
               && exists e | LoopThrows(host.search(q, o, l).value, e) ::
                    h.payload == Failure(e, RequestId(startTime), startTime, endTime))
  {
  }

  /**
   * `resultCount` is the raw number of issues found: it is never below the
   * number of requests returned, and equals it exactly when no issue was
   * skipped.
   */
  lemma ResultCountCountsSkipped(host: Host, projectKey: JString, startTime: nat, endTime: int, now: string)
    requires Handle(host, projectKey, startTime, endTime, now).payload.Feed?
    ensures var p := Handle(host, projectKey, startTime, endTime, now).payload;
      && host.search(ExecutedJql(host, projectKey), PageOffset, PageSize).Returns?
      && var issues := host.search(ExecutedJql(host, projectKey), PageOffset, PageSize).value;
      && p.diagnostics.resultCount == |issues|
      && |p.data| <= p.diagnostics.resultCount
      && (|p.data| == p.diagnostics.resultCount <==> forall i | 0 <= i < |issues| :: issues[i].fault.Clean?)
  {
    FeedIsMappedSearch(host, projectKey, startTime, endTime, now);
    MapAllDropsOnlyFaulty(host.search(ExecutedJql(host, projectKey), PageOffset, PageSize).value);
  }
}
