/**
 * The token session manager of src/auth.js: an in-memory token cache backed
 * by two storage keys, the JWT expiry check, and the single-flight refresh.
 *
 * The module-level variables `inMemoryTokens` and `refreshingPromise` become
 * the fields of an explicit `Session` record, and every operation is a
 * transition on it. The refresh is split into a start event (the synchronous
 * part up to the network call) and a settle event (what happens when the
 * call's outcome is known).
 */
module Auth {
  import opened Wrappers
  import opened JsValue
  import JsText

  /** The two storage keys; the older checkout screen uses the same names. */
  const AccessKey: string := "accessToken"
  const RefreshKey: string := "refreshToken"

  /** Seconds of safety margin before the token's own `exp`. */
  const ExpirySkew: int := 30

  datatype TokenPair = TokenPair(accessToken: string, refreshToken: string)

  /** Browser storage: string keys to string values; other keys belong to other code. */
  type Storage = map<string, string>

  /** The JSON body of the pending refresh call. */
  datatype RefreshRequest = RefreshRequest(key: string, refreshToken: string, token: string)

  /**
   * `memory` is `inMemoryTokens`; `inFlight` is `refreshingPromise`, carrying
   * the request that the pending promise is waiting on.
   */
  datatype Session = Session(memory: Option<TokenPair>, storage: Storage, inFlight: Option<RefreshRequest>)

  /** `localStorage.getItem(k)`. */
  function StorageGet(st: Storage, k: string): Option<string> {
    if k in st then Some(st[k]) else None
  }

  /** Memory and storage describe the same pair whenever memory holds one. */
  predicate Coherent(s: Session) {
    s.memory.Some? ==>
      && StorageGet(s.storage, AccessKey) == Some(s.memory.value.accessToken)
      && StorageGet(s.storage, RefreshKey) == Some(s.memory.value.refreshToken)
  }

  // ---------------------------------------------------------------------------
  // getTokens / setTokens / clearTokens
  // ---------------------------------------------------------------------------

  datatype Read = Read(session: Session, tokens: Option<TokenPair>)

  /** Both stored values are present and non-empty (`access && refresh`). */
  predicate StorageHasPair(st: Storage) {
    TruthyString(StorageGet(st, AccessKey)) && TruthyString(StorageGet(st, RefreshKey))
  }

  /** `getTokens()`: the cache, else a hydrated pair from storage, else null. */
  function GetTokens(s: Session): (r: Read)
    ensures s.memory.Some? ==> r == Read(s, s.memory)
    ensures s.memory.None? && StorageHasPair(s.storage) ==>
      && r.tokens == Some(TokenPair(s.storage[AccessKey], s.storage[RefreshKey]))
      && r.session == s.(memory := r.tokens)
    ensures s.memory.None? && !StorageHasPair(s.storage) ==> r == Read(s, None)
  {
    if s.memory.Some? then Read(s, s.memory)
    else
      var access := StorageGet(s.storage, AccessKey);
      var refresh := StorageGet(s.storage, RefreshKey);
      if TruthyString(access) && TruthyString(refresh) then
        var p := TokenPair(access.value, refresh.value);
        Read(s.(memory := Some(p)), Some(p))
      else Read(s, None)
  }

  /** `setTokens(p)`: cache and store the pair; nothing else changes. */
  function SetTokens(s: Session, p: TokenPair): (r: Session)
    ensures r.memory == Some(p)
    ensures StorageGet(r.storage, AccessKey) == Some(p.accessToken)
    ensures StorageGet(r.storage, RefreshKey) == Some(p.refreshToken)
    ensures forall k :: k != AccessKey && k != RefreshKey ==> StorageGet(r.storage, k) == StorageGet(s.storage, k)
    ensures r.inFlight == s.inFlight
  {
    Session(Some(p), s.storage[AccessKey := p.accessToken][RefreshKey := p.refreshToken], s.inFlight)
  }

  /** `clearTokens()`: forget the pair in memory and in storage; nothing else changes. */
  function ClearTokens(s: Session): (r: Session)
    ensures r.memory.None?
    ensures StorageGet(r.storage, AccessKey).None? && StorageGet(r.storage, RefreshKey).None?
    ensures forall k :: k != AccessKey && k != RefreshKey ==> StorageGet(r.storage, k) == StorageGet(s.storage, k)
    ensures r.inFlight == s.inFlight
  {
    Session(None, s.storage - {AccessKey, RefreshKey}, s.inFlight)
  }

  /** What was set is what is read back, and the read changes nothing. */
  lemma SetThenGet(s: Session, p: TokenPair)
    ensures GetTokens(SetTokens(s, p)) == Read(SetTokens(s, p), Some(p))
  {
  }

  /** After a clear nothing can be read, and the read changes nothing. */
  lemma ClearThenGet(s: Session)
    ensures GetTokens(ClearTokens(s)) == Read(ClearTokens(s), None)
  {
  }

  /** Reading twice gives the same pair, and the second read changes nothing. */
  lemma GetTokensStable(s: Session)
    ensures GetTokens(GetTokens(s).session) == Read(GetTokens(s).session, GetTokens(s).tokens)
  {
  }

  /** Every auth.js operation keeps memory and storage coherent. */
  lemma CoherentPreserved(s: Session, p: TokenPair)
    requires Coherent(s)
    ensures Coherent(GetTokens(s).session)
    ensures Coherent(SetTokens(s, p))
    ensures Coherent(ClearTokens(s))
  {
  }

  /** In a coherent session a read returns exactly what storage holds, when it holds a pair. */
  lemma CoherentReadMatchesStorage(s: Session)
    requires Coherent(s)
    requires GetTokens(s).tokens.Some?
    ensures StorageGet(s.storage, AccessKey) == Some(GetTokens(s).tokens.value.accessToken)
    ensures StorageGet(s.storage, RefreshKey) == Some(GetTokens(s).tokens.value.refreshToken)
  {
  }

  // ---------------------------------------------------------------------------
  // isJwtExpired
  // ---------------------------------------------------------------------------

  /**
   * What `JSON.parse(atob(segment))` yields: `Unreadable` when either throws
   * (or the payload is `null`, whose `.exp` throws), else the `exp` claim
   * when it is a number.
   */
  datatype Claims = Unreadable | Payload(exp: Option<int>)

  /** `const [, payloadB64] = token.split(".")`: the second dot-separated segment, if any. */
  function PayloadSegment(token: string): Option<string> {
    var parts := JsText.Split(token, '.');
    if |parts| >= 2 then Some(parts[1]) else None
  }

  /** base64url to base64: `-` becomes `+` and `_` becomes `/`. */
  function ToStandardBase64(seg: string): (r: string)
    ensures |r| == |seg|
    ensures '-' !in r && '_' !in r
  {
    seq(|seg|, i requires 0 <= i < |seg| => if seg[i] == '-' then '+' else if seg[i] == '_' then '/' else seg[i])
  }

  /** `isJwtExpired(token)` with the decoder and the clock (whole seconds) as inputs. */
  function IsJwtExpired(token: string, now: int, decode: string -> Claims): (expired: bool)
    ensures PayloadSegment(token).None? ==> !expired
    ensures PayloadSegment(token) == Some("") ==> !expired
    ensures expired ==> decode(ToStandardBase64(PayloadSegment(token).value)).Payload?
  {
    match PayloadSegment(token)
    case None => false
    case Some(seg) =>
      if seg == "" then false
      else
        match decode(ToStandardBase64(seg))
        case Unreadable => false
        case Payload(exp) => now >= exp.GetOr(0) - ExpirySkew
  }

  /** The boundary sits exactly `ExpirySkew` seconds before `exp`. */
  lemma ExpiryBoundary(token: string, now: int, decode: string -> Claims, t: int)
    requires PayloadSegment(token).Some? && PayloadSegment(token).value != ""
    requires decode(ToStandardBase64(PayloadSegment(token).value)) == Payload(Some(t))
    ensures IsJwtExpired(token, now, decode) <==> now >= t - 30
    ensures !IsJwtExpired(token, t - 31, decode) && IsJwtExpired(token, t - 29, decode)
  {
  }

  /** A token without an `exp` number counts as expiring at time 0. */
  lemma MissingExpIsExpired(token: string, now: int, decode: string -> Claims)
    requires PayloadSegment(token).Some? && PayloadSegment(token).value != ""
    requires decode(ToStandardBase64(PayloadSegment(token).value)) == Payload(None)
    ensures IsJwtExpired(token, now, decode) <==> now >= -30
  {
  }

  /** Once expired, a token stays expired as the clock moves on. */
  lemma ExpiryMonotone(token: string, now: int, later: int, decode: string -> Claims)
    requires now <= later
    requires IsJwtExpired(token, now, decode)
    ensures IsJwtExpired(token, later, decode)
  {
  }

  /** A token with no dot never reads as expired, whatever the decoder would say. */
  lemma NoDotFailsOpen(token: string, now: int, decode: string -> Claims)
    requires '.' !in token
    ensures !IsJwtExpired(token, now, decode)
  {
    JsText.SplitNoSeparator(token, '.');
  }

  /** Two segments are enough: `header.payload` yields `payload`; no signature segment is needed. */
  lemma TwoSegmentsSuffice(header: string, payload: string)
    requires '.' !in header && '.' !in payload
    ensures PayloadSegment(header + "." + payload) == Some(payload)
  {
    JsText.SplitAtSeparator(header, '.', payload);
    JsText.SplitNoSeparator(payload, '.');
    assert header + "." + payload == header + ['.'] + payload;
  }

  // ---------------------------------------------------------------------------
  // refreshTokens: start and settle
  // ---------------------------------------------------------------------------

  /** What a call to `refreshTokens()` does before awaiting anything. */
  datatype StartResult =
    | Joined                           // returned the pending promise; no new request
    | NoTokens                         // resolved to null at once
    | Issued(request: RefreshRequest)  // set the lock and sent this request

  datatype Started = Started(session: Session, result: StartResult)

  /** The synchronous part of `refreshTokens()`, up to the network call. */
  function StartRefresh(s: Session, apiKey: string): (r: Started)
    ensures s.inFlight.Some? ==> r == Started(s, Joined)
    ensures r.result.NoTokens? ==> s.inFlight.None? && GetTokens(s).tokens.None? && r.session.inFlight.None?
    ensures r.result.Issued? <==> s.inFlight.None? && GetTokens(s).tokens.Some?
    ensures r.result.Issued? ==>
      && r.result.request == RefreshRequest(apiKey, GetTokens(s).tokens.value.refreshToken, GetTokens(s).tokens.value.accessToken)
      && r.session == GetTokens(s).session.(inFlight := Some(r.result.request))
  {
    if s.inFlight.Some? then Started(s, Joined)
    else
      var read := GetTokens(s);
      match read.tokens
      case None => Started(read.session, NoTokens)
      case Some(current) =>
        var request := RefreshRequest(apiKey, current.refreshToken, current.accessToken);
        Started(read.session.(inFlight := Some(request)), Issued(request))
  }

  /** The token fields of a response object; `None` is null or undefined. */
  datatype TokenFields = TokenFields(accessToken: Option<string>, refreshToken: Option<string>)

  /** A parsed refresh response: `data.data` (if an object) and the top-level fields. */
  datatype RefreshBody = RefreshBody(data: Option<TokenFields>, top: TokenFields)

  /** How the refresh call ended: a response (whose body may fail to parse), or a thrown exception. */
  datatype RefreshOutcome = Responded(status: int, body: Option<RefreshBody>) | Threw

  /** `res.ok`. */
  predicate IsOk(status: int) {
    200 <= status <= 299
  }

  /** `data?.data?.accessToken` and `data?.data?.refreshToken`: auth.js looks nowhere else. */
  function NestedAccess(b: RefreshBody): Option<string> {
    if b.data.Some? then b.data.value.accessToken else None
  }

  function NestedRefresh(b: RefreshBody): Option<string> {
    if b.data.Some? then b.data.value.refreshToken else None
  }

  /** The pair a refresh outcome carries for auth.js, if it carries a complete one. */
  function RenewedPair(outcome: RefreshOutcome): Option<TokenPair> {
    match outcome
    case Threw => None
    case Responded(status, body) =>
      if !IsOk(status) || body.None? then None
      else if TruthyString(NestedAccess(body.value)) && TruthyString(NestedRefresh(body.value)) then
        Some(TokenPair(NestedAccess(body.value).value, NestedRefresh(body.value).value))
      else None
  }

  datatype Settled = Settled(session: Session, result: Option<TokenPair>)

  /**
   * The pending promise settles: a non-ok status, an unparsable body, a
   * missing `data.data` token or an exception clears the tokens and yields
   * null; otherwise the new pair is stored and yielded. The lock is released
   * on every path.
   */
  function SettleRefresh(s: Session, outcome: RefreshOutcome): (r: Settled)
    ensures r.session.inFlight.None?
    ensures r.result.Some? ==> r.result.value.accessToken != "" && r.result.value.refreshToken != ""
    ensures outcome.Threw? ==> r.result.None?
    ensures outcome.Responded? && !IsOk(outcome.status) ==> r.result.None?
    ensures r.result.Some? ==> r.session == SetTokens(s, r.result.value).(inFlight := None)
    ensures r.result.None? ==> r.session == ClearTokens(s).(inFlight := None)
  {
    var released := s.(inFlight := None);
    match RenewedPair(outcome)
    case Some(next) => Settled(SetTokens(released, next), Some(next))
    case None => Settled(ClearTokens(released), None)
  }

  /** After a failed refresh, every later read reports no tokens, even if storage held some. */
  lemma SettleFailureForgets(s: Session, outcome: RefreshOutcome)
    requires SettleRefresh(s, outcome).result.None?
    ensures GetTokens(SettleRefresh(s, outcome).session).tokens.None?
    ensures StorageGet(SettleRefresh(s, outcome).session.storage, AccessKey).None?
  {
  }

  /** After a successful refresh, reads return the new pair. */
  lemma SettleSuccessVisible(s: Session, outcome: RefreshOutcome)
    requires SettleRefresh(s, outcome).result.Some?
    ensures GetTokens(SettleRefresh(s, outcome).session).tokens == SettleRefresh(s, outcome).result
  {
  }

  /** A well-formed ok response whose tokens sit only at the top level is treated as malformed. */
  lemma TopLevelTokensIgnored(s: Session, status: int, top: TokenFields)
    requires IsOk(status)
    ensures SettleRefresh(s, Responded(status, Some(RefreshBody(None, top)))).result.None?
  {
  }

  /** The refresh never leaves the session incoherent. */
  lemma SettleCoherent(s: Session, outcome: RefreshOutcome, apiKey: string)
    ensures Coherent(SettleRefresh(s, outcome).session)
    ensures Coherent(s) ==> Coherent(StartRefresh(s, apiKey).session)
  {
  }

  // ---------------------------------------------------------------------------
  // Single flight
  // ---------------------------------------------------------------------------

  datatype Storm = Storm(session: Session, starts: seq<StartResult>)

  /** `n` callers invoke `refreshTokens()` before the pending call settles. */
  function StartMany(s: Session, apiKey: string, n: nat): (r: Storm)
    ensures |r.starts| == n
    decreases n
  {
    if n == 0 then Storm(s, [])
    else
      var first := StartRefresh(s, apiKey);
      var rest := StartMany(first.session, apiKey, n - 1);
      Storm(rest.session, [first.result] + rest.starts)
  }

  function CountIssued(starts: seq<StartResult>): nat
    decreases |starts|
  {
    if |starts| == 0 then 0 else (if starts[0].Issued? then 1 else 0) + CountIssued(starts[1..])
  }

  /** Once a refresh is pending, every further caller joins it. */
  lemma {:induction false} PendingAllJoin(s: Session, apiKey: string, n: nat)
    requires s.inFlight.Some?
    ensures StartMany(s, apiKey, n).session == s
    ensures forall i :: 0 <= i < n ==> StartMany(s, apiKey, n).starts[i] == Joined
    decreases n
  {
    if n > 0 {
      PendingAllJoin(s, apiKey, n - 1);
    }
  }

  /** Without tokens no caller sends anything and no lock is taken. */
  lemma {:induction false} NoTokensNeverLock(s: Session, apiKey: string, n: nat)
    requires s.inFlight.None? && GetTokens(s).tokens.None?
    ensures StartMany(s, apiKey, n).session.inFlight.None?
    ensures GetTokens(StartMany(s, apiKey, n).session).tokens.None?
    ensures forall i :: 0 <= i < n ==> StartMany(s, apiKey, n).starts[i] == NoTokens
    decreases n
  {
    if n > 0 {
      NoTokensNeverLock(StartRefresh(s, apiKey).session, apiKey, n - 1);
    }
  }

  lemma {:induction false} CountIssuedJoined(starts: seq<StartResult>)
    requires forall i :: 0 <= i < |starts| ==> starts[i] == Joined
    ensures CountIssued(starts) == 0
    decreases |starts|
  {
    if |starts| > 0 {
      CountIssuedJoined(starts[1..]);
    }
  }

  lemma {:induction false} CountIssuedNone(starts: seq<StartResult>)
    requires forall i :: 0 <= i < |starts| ==> starts[i] == NoTokens
    ensures CountIssued(starts) == 0
    decreases |starts|
  {
    if |starts| > 0 {
      CountIssuedNone(starts[1..]);
    }
  }

  /**
   * However many callers ask before the pending call settles, at most one
   * refresh request is sent, and none when one was already pending.
   */
  lemma SingleFlight(s: Session, apiKey: string, n: nat)
    ensures CountIssued(StartMany(s, apiKey, n).starts) <= 1
    ensures s.inFlight.Some? ==> CountIssued(StartMany(s, apiKey, n).starts) == 0
  {
    if n > 0 {
      var first := StartRefresh(s, apiKey);
      var r := StartMany(s, apiKey, n);
      assert r.starts[1..] == StartMany(first.session, apiKey, n - 1).starts;
      match first.result
      case Joined =>
        PendingAllJoin(s, apiKey, n);
        CountIssuedJoined(r.starts);
      case NoTokens =>
        NoTokensNeverLock(s, apiKey, n);
        CountIssuedNone(r.starts);
      case Issued(_) =>
        PendingAllJoin(first.session, apiKey, n - 1);
        CountIssuedJoined(r.starts[1..]);
    }
  }

  /** The result each caller of a storm receives once the single pending call settles. */
  function Receives(start: StartResult, settled: Settled): Option<TokenPair> {
    if start.NoTokens? then None else settled.result
  }

  /** All callers of one storm receive the same result: the settled pair, or all null. */
  lemma StormSharesResult(s: Session, apiKey: string, n: nat, outcome: RefreshOutcome, i: nat, j: nat)
    requires i < n && j < n
    ensures
      var storm := StartMany(s, apiKey, n);
      var settled := SettleRefresh(storm.session, outcome);
      Receives(storm.starts[i], settled) == Receives(storm.starts[j], settled)
  {
    var first := StartRefresh(s, apiKey);
    var storm := StartMany(s, apiKey, n);
    assert storm.starts[1..] == StartMany(first.session, apiKey, n - 1).starts;
    match first.result
    case Joined =>
      PendingAllJoin(s, apiKey, n);
    case NoTokens =>
      NoTokensNeverLock(s, apiKey, n);
    case Issued(_) =>
      PendingAllJoin(first.session, apiKey, n - 1);
      assert storm.starts[0].Issued?;
      assert forall k :: 1 <= k < n ==> storm.starts[k] == StartMany(first.session, apiKey, n - 1).starts[k - 1];
  }

  // ---------------------------------------------------------------------------
  // One caller's view of a refresh
  // ---------------------------------------------------------------------------

  datatype Refreshed = Refreshed(session: Session, result: Option<TokenPair>, requests: nat)

  /**
   * `await refreshTokens()` as seen by one caller: start, then the pending
   * call (this caller's own, or the one it joined) settles with `outcome`.
   */
  function Refresh(s: Session, apiKey: string, outcome: RefreshOutcome): (r: Refreshed)
    ensures r.requests <= 1
    ensures r.session.inFlight.None?
    ensures r.result.Some? ==> GetTokens(r.session).tokens == r.result
    ensures r.result.Some? ==> r.result == RenewedPair(outcome)
    ensures r.requests == 1 <==> s.inFlight.None? && GetTokens(s).tokens.Some?
  {
    var st := StartRefresh(s, apiKey);
    match st.result
    case NoTokens => Refreshed(st.session, None, 0)
    case Issued(_) =>
      var settled := SettleRefresh(st.session, outcome);
      Refreshed(settled.session, settled.result, 1)
    case Joined =>
      var settled := SettleRefresh(s, outcome);
      Refreshed(settled.session, settled.result, 0)
  }
}
