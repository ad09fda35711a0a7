/**
 * `fetchWithAuth` of src/auth.js: header merge, proactive refresh of an
 * expired access token, one request, and at most one retry after a 401/403.
 *
 * The network is scripted: `first` and `second` are the statuses the
 * wrapped endpoint answers with, and `proactive` / `reactive` are the
 * outcomes of the refresh calls that may happen before and after the first
 * request. Each element of `sent` is the header object of one outbound call.
 */
module AuthFetch {
  import opened Wrappers
  import opened Auth
  import Records

  type Headers = seq<(string, string)>

  const ContentType: string := "Content-Type"
  const JsonType: string := "application/json"
  const Authorization: string := "Authorization"

  function Bearer(token: string): string {
    "Bearer " + token
  }

  /** `{ "Content-Type": "application/json", ...(init.headers || {}) }`. */
  function BaseHeaders(caller: Headers): Headers {
    Records.Assign([(ContentType, JsonType)], caller)
  }

  /** Content-Type defaults to JSON, but every header the caller gives wins. */
  lemma BaseHeadersLookup(caller: Headers, k: string)
    requires Records.DistinctKeys(caller)
    ensures Records.Lookup(BaseHeaders(caller), ContentType) == Some(Records.Lookup(caller, ContentType).GetOr(JsonType))
    ensures k != ContentType ==> Records.Lookup(BaseHeaders(caller), k) == Records.Lookup(caller, k)
  {
    Records.AssignLookup([(ContentType, JsonType)], caller, ContentType);
    Records.AssignLookup([(ContentType, JsonType)], caller, k);
  }

  /** `if (tokens?.accessToken) headers.Authorization = "Bearer " + tokens.accessToken`. */
  function WithBearer(h: Headers, tokens: Option<TokenPair>): (r: Headers)
    ensures tokens.Some? && tokens.value.accessToken != "" ==>
      Records.Lookup(r, Authorization) == Some(Bearer(tokens.value.accessToken))
    ensures forall k :: k != Authorization ==> Records.Lookup(r, k) == Records.Lookup(h, k)
    ensures !(tokens.Some? && tokens.value.accessToken != "") ==> r == h
  {
    if tokens.Some? && tokens.value.accessToken != "" then Records.Put(h, Authorization, Bearer(tokens.value.accessToken)) else h
  }

  predicate IsAuthFailure(status: int) {
    status == 401 || status == 403
  }

  /** The tokens the first request goes out with, after any proactive refresh. */
  datatype Prepared = Prepared(session: Session, tokens: Option<TokenPair>, requests: nat)

  /** Reads the tokens and refreshes first when a non-empty access token looks expired. */
  function Prepare(s: Session, apiKey: string, now: int, decode: string -> Claims, proactive: RefreshOutcome): (r: Prepared)
    ensures r.requests <= 1
  {
    var read := GetTokens(s);
    if read.tokens.Some? && read.tokens.value.accessToken != "" && IsJwtExpired(read.tokens.value.accessToken, now, decode) then
      var refreshed := Refresh(read.session, apiKey, proactive);
      Prepared(refreshed.session, refreshed.result, refreshed.requests)
    else Prepared(read.session, read.tokens, 0)
  }

  datatype Fetched = Fetched(session: Session, sent: seq<Headers>, status: int, refreshRequests: nat)

  /** `fetchWithAuth(input, init)`. */
  function FetchWithAuth(
    s: Session, apiKey: string, now: int, decode: string -> Claims, caller: Headers,
    first: int, second: int, proactive: RefreshOutcome, reactive: RefreshOutcome): (r: Fetched)
    ensures 1 <= |r.sent| <= 2
    ensures r.refreshRequests <= 2
    ensures r.sent[0] == WithBearer(BaseHeaders(caller), Prepare(s, apiKey, now, decode, proactive).tokens)
    ensures |r.sent| == 2 ==> IsAuthFailure(first) && r.status == second
    ensures |r.sent| == 1 ==> r.status == first
    ensures |r.sent| == 2 ==>
      && GetTokens(r.session).tokens.Some?
      && Records.Lookup(r.sent[1], Authorization) == Some(Bearer(GetTokens(r.session).tokens.value.accessToken))
    ensures forall i, k :: 0 <= i < |r.sent| && k != Authorization ==>
      Records.Lookup(r.sent[i], k) == Records.Lookup(BaseHeaders(caller), k)
  {
    var prepared := Prepare(s, apiKey, now, decode, proactive);
    var headers := WithBearer(BaseHeaders(caller), prepared.tokens);
    if IsAuthFailure(first) then
      var renewed := Refresh(prepared.session, apiKey, reactive);
      if renewed.result.Some? && renewed.result.value.accessToken != "" then
        var retried := Records.Put(headers, Authorization, Bearer(renewed.result.value.accessToken));
        Fetched(renewed.session, [headers, retried], second, prepared.requests + renewed.requests)
      else
        Fetched(renewed.session, [headers], first, prepared.requests + renewed.requests)
    else
      Fetched(prepared.session, [headers], first, prepared.requests)
  }

  /** The retry happens exactly on a 401/403 whose refresh yields a pair. */
  lemma RetryIff(
    s: Session, apiKey: string, now: int, decode: string -> Claims, caller: Headers,
    first: int, second: int, proactive: RefreshOutcome, reactive: RefreshOutcome)
    ensures
      var prepared := Prepare(s, apiKey, now, decode, proactive);
      |FetchWithAuth(s, apiKey, now, decode, caller, first, second, proactive, reactive).sent| == 2
      <==> IsAuthFailure(first) && Refresh(prepared.session, apiKey, reactive).result.Some?
  {
  }

  /** A request that is not answered with 401/403 is never repeated and triggers no late refresh. */
  lemma NoRetryOtherwise(
    s: Session, apiKey: string, now: int, decode: string -> Claims, caller: Headers,
    first: int, second: int, proactive: RefreshOutcome, reactive: RefreshOutcome)
    requires !IsAuthFailure(first)
    ensures
      var r := FetchWithAuth(s, apiKey, now, decode, caller, first, second, proactive, reactive);
      |r.sent| == 1 && r.status == first && r.session == Prepare(s, apiKey, now, decode, proactive).session
  {
  }

  /** An unexpired (or unreadable) token goes out as it is; an expired one is refreshed first. */
  lemma ProactiveRefresh(s: Session, apiKey: string, now: int, decode: string -> Claims, proactive: RefreshOutcome)
    requires GetTokens(s).tokens.Some?
    ensures
      var p := GetTokens(s).tokens.value;
      var prepared := Prepare(s, apiKey, now, decode, proactive);
      if p.accessToken != "" && IsJwtExpired(p.accessToken, now, decode)
      then prepared.tokens == Refresh(GetTokens(s).session, apiKey, proactive).result
      else prepared.tokens == Some(p) && prepared.requests == 0
  {
  }

  /** Every outbound call carries JSON Content-Type unless the caller set its own. */
  lemma SentContentType(
    s: Session, apiKey: string, now: int, decode: string -> Claims, caller: Headers,
    first: int, second: int, proactive: RefreshOutcome, reactive: RefreshOutcome, i: nat)
    requires Records.DistinctKeys(caller)
    requires i < |FetchWithAuth(s, apiKey, now, decode, caller, first, second, proactive, reactive).sent|
    ensures Records.Lookup(FetchWithAuth(s, apiKey, now, decode, caller, first, second, proactive, reactive).sent[i], ContentType)
      == Some(Records.Lookup(caller, ContentType).GetOr(JsonType))
  {
    BaseHeadersLookup(caller, ContentType);
  }

  /**
   * The end-to-end scenario: a stored pair whose access token has expired is
   * refreshed before the request, the request carries the new token, and no
   * 401 reaches the caller.
   */
  lemma ExpiredTokenScenario(decode: string -> Claims, now: int, exp: int)
    requires decode(ToStandardBase64("p1")) == Payload(Some(exp))
    requires now >= exp - 30
    ensures
      var s := SetTokens(Session(None, map[], None), TokenPair("h.p1", "r1"));
      var ok := Responded(200, Some(RefreshBody(Some(TokenFields(Some("h.p2"), Some("r2"))), TokenFields(None, None))));
      var r := FetchWithAuth(s, "key", now, decode, [], 200, 200, ok, Threw);
      && |r.sent| == 1
      && r.status == 200
      && Records.Lookup(r.sent[0], Authorization) == Some("Bearer h.p2")
      && GetTokens(r.session).tokens == Some(TokenPair("h.p2", "r2"))
      && r.refreshRequests == 1
  {
    TwoSegmentsSuffice("h", "p1");
    assert "h.p1" == "h" + "." + "p1";
    var s := SetTokens(Session(None, map[], None), TokenPair("h.p1", "r1"));
    var ok := Responded(200, Some(RefreshBody(Some(TokenFields(Some("h.p2"), Some("r2"))), TokenFields(None, None))));
    var p2 := TokenPair("h.p2", "r2");
    assert GetTokens(s) == Read(s, Some(TokenPair("h.p1", "r1")));
    assert IsJwtExpired("h.p1", now, decode);
    assert RenewedPair(ok) == Some(p2);
    var refreshed := Refresh(s, "key", ok);
    assert refreshed.result == Some(p2) && refreshed.requests == 1;
    var prepared := Prepare(s, "key", now, decode, ok);
    assert prepared.tokens == Some(p2);
    var headers := WithBearer(BaseHeaders([]), prepared.tokens);
    assert Bearer("h.p2") == "Bearer h.p2";
  }

  /** Two 401s in a row: the second one is returned and there is no third attempt. */
  lemma RepeatedUnauthorizedScenario(s: Session, apiKey: string, now: int, decode: string -> Claims, caller: Headers,
    proactive: RefreshOutcome, reactive: RefreshOutcome)
    requires Refresh(Prepare(s, apiKey, now, decode, proactive).session, apiKey, reactive).result.Some?
    ensures
      var r := FetchWithAuth(s, apiKey, now, decode, caller, 401, 401, proactive, reactive);
      |r.sent| == 2 && r.status == 401
  {
  }
}
