/** Rewriting the headers of a request before it goes to the backend. */
module BackendHeaders {
  import opened Wrappers
  import opened Http
  import opened Text
  import opened MandatoryHeaders

  function Lookup<V>(h: map<HeaderKey, V>, k: HeaderKey): Option<V> {
    if k in h then Some(h[k]) else None
  }

  function One(v: string): Option<seq<string>> {
    Some([v])
  }

  function DecimalDigits(n: nat): string
    decreases n
  {
    (if n >= 10 then DecimalDigits(n / 10) else "") + ['0' + (n % 10) as char]
  }

  function Decimal(n: int): string {
    if n < 0 then "-" + DecimalDigits(-n) else DecimalDigits(n)
  }

  function BoolText(b: bool): string {
    if b then "true" else "false"
  }

  // ----- What each header is to hold -----

  /** The values a session has to offer; empty ones are not set. */
  datatype SessionValues<V> = SessionValues(
    accountId: Option<V>, username: Option<V>, businessId: Option<V>, deviceId: Option<V>,
    role: Option<V>, loginMedia: Option<V>, loyaltyKey: Option<V>, verified: V, token: V, tixSession: V)

  function SessionValuesOf(r: Request, s: Session): SessionValues<seq<string>> {
    SessionValues(if s.accountId != 0 then One(Decimal(s.accountId)) else None,
                  NonEmpty(s.username), NonEmpty(s.businessId), NonEmpty(s.deviceId), NonEmpty(s.role),
                  NonEmpty(s.loginMedia), NonEmpty(s.loyaltyKey), [BoolText(s.verifiedPhoneNumber)], [s.token],
                  [FindCookie(r, "PHPSESSID")])
  }

  /** The value the session gives to a header, if it gives one. */
  function FromSession<V>(v: SessionValues<V>, k: HeaderKey): Option<V> {
    match k
    case AccountId => v.accountId
    case Username => v.username
    case BusinessId => v.businessId
    case DeviceId => v.deviceId
    case RoleId => v.role
    case LoginMedia => v.loginMedia
    case LoyaltyLevel => v.loyaltyKey
    case IsVerifiedPhoneNumber => Some(v.verified)
    case Authorization => Some(v.token)
    case TixToken => Some(v.token)
    case TixSession => Some(v.tixSession)
    case _ => None
  }

  function NonEmpty(v: string): Option<seq<string>> {
    if v == "" then None else One(v)
  }

  /** The values computed from a request. */
  datatype Values<V> = Values(
    requestId: V, storeId: V, language: V, currency: V, deviceId: V, identity: V, resellerId: V, resellerType: V,
    tagAffId: V, clientIp: V, channelId: V, contentType: V, serviceId: V, username: V, accountId: V, verified: V)

  function ValuesOf(r: Request, env: Env): Values<seq<string>> {
    ValuesWith(r, env, ClientIp(r, env.localIp))
  }

  /** All values but the client address come straight from the getters. */
  function ValuesWith(r: Request, env: Env, clientIp: string): Values<seq<string>> {
    Values([RequestIdOf(r.header, env.uuid)], [StoreIdOf(r.header)], [LanguageOf(r.header)], [CurrencyOf(r.header)],
           [DeviceIdOf(r)], [IdentityOf(r)], [ResellerIdOf(r)], [ResellerTypeOf(ResellerIdOf(r))], [TagAffIdOf(r)],
           [clientIp], [ChannelIdOf(r.header, env.device)], [ContentTypeOf(r.header)],
           ["TTD_GATEWAY"], ["guest"], ["0"], ["false"])
  }

  /** The value given to a header whether or not there is a session, if any. */
  function FromRequest<V>(v: Values<V>, k: HeaderKey): Option<V> {
    match k
    case RequestId => Some(v.requestId)
    case ServiceId => Some(v.serviceId)
    case Username => Some(v.username)
    case StoreId => Some(v.storeId)
    case AccountId => Some(v.accountId)
    case AcceptLanguage => Some(v.language)
    case Currency => Some(v.currency)
    case DeviceId => Some(v.deviceId)
    case Identity => Some(v.identity)
    case ResellerId => Some(v.resellerId)
    case ResellerType => Some(v.resellerType)
    case IsVerifiedPhoneNumber => Some(v.verified)
    case TagAffId => Some(v.tagAffId)
    case ForwardedFor => Some(v.clientIp)
    case TrueClientIp => Some(v.clientIp)
    case ChannelId => Some(v.channelId)
    case ContentType => Some(v.contentType)
    case _ => None
  }

  /** What a header holds before the legacy copies: the session's value, else the request's, else
      what came in. */
  function Primary<V>(h: map<HeaderKey, V>, v: Values<V>, s: Option<SessionValues<V>>, k: HeaderKey): Option<V> {
    if s.Some? && FromSession(s.value, k).Some? then FromSession(s.value, k)
    else if FromRequest(v, k).Some? then FromRequest(v, k)
    else Lookup(h, k)
  }

  function SessionPart(r: Request): Option<SessionValues<seq<string>>> {
    match r.session
    case Some(s) => Some(SessionValuesOf(r, s))
    case None => None
  }

  function FirstOf(vs: Option<seq<string>>): string {
    if vs.Some? && vs.value != [] then vs.value[0] else ""
  }

  /** What a header holds in the backend request: as `Primary`, or a copy of another header under
      a legacy name. The Cookie header is dropped. */
  function ExpectedWith(h: Header, v: Values<seq<string>>, s: Option<SessionValues<seq<string>>>, k: HeaderKey): Option<seq<string>> {
    match k
    case Cookie => None
    case OldUsername => One(FirstOf(Primary(h, v, s, Username)))
    case OldResellerId => One(FirstOf(Primary(h, v, s, ResellerId)))
    case OldUserAgent => if Get(h, OldUserAgent) == "" then One(Get(h, UserAgent)) else Lookup(h, OldUserAgent)
    case _ => Primary(h, v, s, k)
  }

  function Expected(r: Request, env: Env, k: HeaderKey): Option<seq<string>> {
    ExpectedWith(r.header, ValuesOf(r, env), SessionPart(r), k)
  }

  /** The headers the rewriting may change, with or without a session. */
  const TOUCHED: set<HeaderKey> := {
    RequestId, ServiceId, Username, StoreId, AccountId, AcceptLanguage, Currency, DeviceId, Identity, ResellerId,
    ResellerType, IsVerifiedPhoneNumber, TagAffId, ForwardedFor, TrueClientIp, ChannelId, ContentType,
    BusinessId, RoleId, LoginMedia, LoyaltyLevel, Authorization, TixToken, TixSession,
    OldUsername, OldResellerId, OldUserAgent, Cookie
  }

  /** The headers of the backend request. */
  function Mandatory(r: Request, env: Env): Header {
    map k | k in r.header.Keys + TOUCHED && Expected(r, env, k).Some? :: Expected(r, env, k).value
  }

  // ----- Setting the headers in place -----

  /** The header map of a request, changed in place. */
  class HeaderMap<V> {
    var entries: map<HeaderKey, V>

    constructor (entries: map<HeaderKey, V>)
      ensures this.entries == entries
    {
      this.entries := entries;
    }

    method Set(k: HeaderKey, v: V)
      modifies this
      ensures entries == old(entries)[k := v]
    {
      entries := entries[k := v];
    }

    method SetIfGiven(k: HeaderKey, v: Option<V>)
      modifies this
      ensures entries == if v.Some? then old(entries)[k := v.value] else old(entries)
    {
      if v.Some? {
        Set(k, v.value);
      }
    }

    method Del(k: HeaderKey)
      modifies this
      ensures entries == old(entries) - {k}
    {
      entries := entries - {k};
    }
  }

  method SetCallerHeaders<V>(header: HeaderMap<V>, v: Values<V>)
    modifies header
    ensures forall k :: Lookup(header.entries, k) ==
              if k in {RequestId, ServiceId, Username, StoreId, AccountId, AcceptLanguage, Currency, DeviceId} then FromRequest(v, k)
              else Lookup(old(header.entries), k)
  {
    header.Set(RequestId, v.requestId);
    header.Set(ServiceId, v.serviceId);
    header.Set(Username, v.username);
    header.Set(StoreId, v.storeId);
    header.Set(AccountId, v.accountId);
    header.Set(AcceptLanguage, v.language);
    header.Set(Currency, v.currency);
    header.Set(DeviceId, v.deviceId);
  }

  method SetResellerHeaders<V>(header: HeaderMap<V>, v: Values<V>)
    modifies header
    ensures forall k :: Lookup(header.entries, k) ==
              if k in {Identity, ResellerId, ResellerType, IsVerifiedPhoneNumber, TagAffId} then FromRequest(v, k)
              else Lookup(old(header.entries), k)
  {
    header.Set(Identity, v.identity);
    header.Set(ResellerId, v.resellerId);
    header.Set(ResellerType, v.resellerType);
    header.Set(IsVerifiedPhoneNumber, v.verified);
    header.Set(TagAffId, v.tagAffId);
  }

  method SetTransportHeaders<V>(header: HeaderMap<V>, v: Values<V>)
    modifies header
    ensures forall k :: Lookup(header.entries, k) ==
              if k in {ForwardedFor, TrueClientIp, ChannelId, ContentType} then FromRequest(v, k)
              else Lookup(old(header.entries), k)
  {
    header.Set(ForwardedFor, v.clientIp);
    header.Set(TrueClientIp, v.clientIp);
    header.Set(ChannelId, v.channelId);
    header.Set(ContentType, v.contentType);
  }

  /** Every header that the request gives a value has that value; all others are as before. */
  method SetRequestHeaders<V>(header: HeaderMap<V>, v: Values<V>)
    modifies header
    ensures forall k :: Lookup(header.entries, k) ==
              if FromRequest(v, k).Some? then FromRequest(v, k) else Lookup(old(header.entries), k)
  {
    SetCallerHeaders(header, v);
    SetResellerHeaders(header, v);
    SetTransportHeaders(header, v);
  }

  method SetSessionIds<V>(header: HeaderMap<V>, v: SessionValues<V>)
    modifies header
    ensures forall k :: Lookup(header.entries, k) ==
              if k in {AccountId, Username, BusinessId, DeviceId} && FromSession(v, k).Some? then FromSession(v, k)
              else Lookup(old(header.entries), k)
  {
    header.SetIfGiven(AccountId, v.accountId);
    header.SetIfGiven(Username, v.username);
    header.SetIfGiven(BusinessId, v.businessId);
    header.SetIfGiven(DeviceId, v.deviceId);
  }

  method SetSessionDetails<V>(header: HeaderMap<V>, v: SessionValues<V>)
    modifies header
    ensures forall k :: Lookup(header.entries, k) ==
              if k in {RoleId, LoginMedia, LoyaltyLevel} && FromSession(v, k).Some? then FromSession(v, k)
              else Lookup(old(header.entries), k)
  {
    header.SetIfGiven(RoleId, v.role);
    header.SetIfGiven(LoginMedia, v.loginMedia);
    header.SetIfGiven(LoyaltyLevel, v.loyaltyKey);
  }

  method SetSessionTokens<V>(header: HeaderMap<V>, v: SessionValues<V>)
    modifies header
    ensures forall k :: Lookup(header.entries, k) ==
              if k in {IsVerifiedPhoneNumber, Authorization, TixToken, TixSession} then FromSession(v, k)
              else Lookup(old(header.entries), k)
  {
    header.Set(IsVerifiedPhoneNumber, v.verified);
    header.Set(Authorization, v.token);
    header.Set(TixToken, v.token);
    header.Set(TixSession, v.tixSession);
  }

  /** Every header that the session gives a value has that value; all others are as before. */
  method SetSessionHeaders<V>(header: HeaderMap<V>, v: SessionValues<V>)
    modifies header
    ensures forall k :: Lookup(header.entries, k) ==
              if FromSession(v, k).Some? then FromSession(v, k) else Lookup(old(header.entries), k)
  {
    SetSessionIds(header, v);
    SetSessionDetails(header, v);
    SetSessionTokens(header, v);
  }

  /** The copies under legacy names are those of what is there; a user agent already under its
      legacy name is kept. */
  function Legacy(h: Header, k: HeaderKey): Option<seq<string>> {
    match k
    case OldUsername => One(Get(h, Username))
    case OldResellerId => One(Get(h, ResellerId))
    case OldUserAgent => if Get(h, OldUserAgent) == "" then One(Get(h, UserAgent)) else Lookup(h, k)
    case _ => Lookup(h, k)
  }

  method SetOldKeys(header: HeaderMap<seq<string>>)
    modifies header
    ensures forall k :: Lookup(header.entries, k) == Legacy(old(header.entries), k)
  {
    header.Set(OldUsername, [Get(header.entries, Username)]);
    header.Set(OldResellerId, [Get(header.entries, ResellerId)]);
    if Get(header.entries, OldUserAgent) == "" {
      header.Set(OldUserAgent, [Get(header.entries, UserAgent)]);
    }
  }

  method SetPrimary<V>(header: HeaderMap<V>, v: Values<V>, s: Option<SessionValues<V>>)
    modifies header
    ensures HoldsPrimary(header.entries, old(header.entries), v, s)
  {
    SetRequestHeaders(header, v);
    if s.Some? {
      SetSessionHeaders(header, s.value);
    }
  }

  /** A copy of the request's headers, filled in: every header holds what is expected of it. */
  method SetMandatoryHeaders(r: Request, env: Env) returns (header: HeaderMap<seq<string>>)
    ensures fresh(header) && header.entries == Mandatory(r, env)
    ensures forall k :: Lookup(header.entries, k) == Expected(r, env, k)
  {
    header := FillHeaders(r, env);
    MandatoryIsUnique(r, env, header.entries);
  }

  method FillHeaders(r: Request, env: Env) returns (header: HeaderMap<seq<string>>)
    ensures fresh(header)
    ensures forall k :: Lookup(header.entries, k) == Expected(r, env, k)
  {
    header := new HeaderMap(r.header);
    var clientIp := GetClientIp(r, env.localIp);
    var v := ValuesWith(r, env, clientIp);
    SetPrimary(header, v, SessionPart(r));
    ghost var p := header.entries;
    SetOldKeys(header);
    header.Del(Cookie);
    LegacyIsExpected(p, r.header, v, SessionPart(r));
  }

  /** p holds the primary values. */
  ghost predicate HoldsPrimary<V>(p: map<HeaderKey, V>, h: map<HeaderKey, V>, v: Values<V>, s: Option<SessionValues<V>>) {
    forall k :: Lookup(p, k) == Primary(h, v, s, k)
  }

  lemma PrimaryGet(p: Header, h: Header, v: Values<seq<string>>, s: Option<SessionValues<seq<string>>>, k: HeaderKey)
    requires HoldsPrimary(p, h, v, s)
    ensures Get(p, k) == FirstOf(Primary(h, v, s, k))
  {
    assert Lookup(p, k) == Primary(h, v, s, k);
  }

  lemma AgentsKept(p: Header, h: Header, v: Values<seq<string>>, s: Option<SessionValues<seq<string>>>, k: HeaderKey)
    requires HoldsPrimary(p, h, v, s) && (k == UserAgent || k == OldUserAgent)
    ensures Lookup(p, k) == Lookup(h, k) && Get(p, k) == Get(h, k)
  {
    assert Lookup(p, k) == Primary(h, v, s, k);
  }

  lemma LegacyAgent(p: Header, h: Header, v: Values<seq<string>>, s: Option<SessionValues<seq<string>>>)
    requires HoldsPrimary(p, h, v, s)
    ensures Legacy(p, OldUserAgent) == ExpectedWith(h, v, s, OldUserAgent)
  {
    AgentsKept(p, h, v, s, UserAgent);
    AgentsKept(p, h, v, s, OldUserAgent);
  }

  lemma LegacyHolds(p: Header, h: Header, v: Values<seq<string>>, s: Option<SessionValues<seq<string>>>, k: HeaderKey)
    requires HoldsPrimary(p, h, v, s)
    ensures k != Cookie ==> Legacy(p, k) == ExpectedWith(h, v, s, k)
  {
    match k {
      case OldUsername => PrimaryGet(p, h, v, s, Username);
      case OldResellerId => PrimaryGet(p, h, v, s, ResellerId);
      case OldUserAgent => LegacyAgent(p, h, v, s);
      case _ =>
        assert Lookup(p, k) == Primary(h, v, s, k);
    }
  }

  lemma LegacyIsExpected(p: Header, h: Header, v: Values<seq<string>>, s: Option<SessionValues<seq<string>>>)
    requires HoldsPrimary(p, h, v, s)
    ensures forall k :: ExpectedWith(h, v, s, k) == if k == Cookie then None else Legacy(p, k)
  {
    forall k ensures ExpectedWith(h, v, s, k) == if k == Cookie then None else Legacy(p, k) {
      LegacyHolds(p, h, v, s, k);
    }
  }

  lemma OthersExpected(h: Header, v: Values<seq<string>>, s: Option<SessionValues<seq<string>>>, k: HeaderKey)
    requires k !in TOUCHED
    ensures ExpectedWith(h, v, s, k) == Lookup(h, k)
  {
  }

  lemma LookupMandatory(r: Request, env: Env, k: HeaderKey)
    ensures Lookup(Mandatory(r, env), k) == Expected(r, env, k)
  {
    if k !in TOUCHED {
      OthersExpected(r.header, ValuesOf(r, env), SessionPart(r), k);
    }
  }

  /** Headers that hold what is expected are determined: they are `Mandatory`. */
  lemma MandatoryIsUnique(r: Request, env: Env, h: Header)
    requires forall k :: Lookup(h, k) == Expected(r, env, k)
    ensures h == Mandatory(r, env)
  {
    forall k ensures Lookup(h, k) == Lookup(Mandatory(r, env), k) {
      LookupMandatory(r, env, k);
    }
    SameLookups(h, Mandatory(r, env));
  }

  lemma SameLookups<V>(g: map<HeaderKey, V>, h: map<HeaderKey, V>)
    requires forall k :: Lookup(g, k) == Lookup(h, k)
    ensures g == h
  {
    forall k ensures k in g <==> k in h {
      assert Lookup(g, k) == Lookup(h, k);
    }
    forall k | k in g ensures g[k] == h[k] {
      assert Lookup(g, k) == Lookup(h, k);
    }
  }

  // ----- What every backend request carries -----

  lemma PlainLookup(h: Header, v: Values<seq<string>>, s: Option<SessionValues<seq<string>>>, k: HeaderKey)
    requires k in {RequestId, StoreId, AcceptLanguage, Currency, ChannelId, ContentType}
    ensures ExpectedWith(h, v, s, k) == FromRequest(v, k)
  {
  }

  lemma GettersNeverEmpty(r: Request, env: Env)
    requires env.uuid != ""
    ensures RequestIdOf(r.header, env.uuid) != "" && StoreIdOf(r.header) != "" && ContentTypeOf(r.header) != ""
    ensures ChannelIdOf(r.header, env.device) != ""
    ensures LanguageOf(r.header) != "" && ToUpper(LanguageOf(r.header)) == LanguageOf(r.header)
    ensures CurrencyOf(r.header) != "" && ToUpper(CurrencyOf(r.header)) == CurrencyOf(r.header)
  {
    ToUpperTwice(FirstNotEmpty(r.header, [AcceptLanguage, OldLang, OldLanguage]));
    ToUpperTwice(FirstNotEmpty(r.header, [Currency, OldCurrency]));
    assert ToUpper("ID") == "ID" && ToUpper("IDR") == "IDR";
  }

  /** Whatever comes in, with or without a session: one value each for the request ID, store,
      language, currency, channel and content type, none of them empty, and language and
      currency in upper case. */
  lemma NeverEmpty(r: Request, env: Env, k: HeaderKey)
    requires env.uuid != "" && k in {RequestId, StoreId, AcceptLanguage, Currency, ChannelId, ContentType}
    ensures exists value: string ::
              && Lookup(Mandatory(r, env), k) == One(value) && value != ""
              && (k in {AcceptLanguage, Currency} ==> ToUpper(value) == value)
  {
    LookupMandatory(r, env, k);
    PlainLookup(r.header, ValuesOf(r, env), SessionPart(r), k);
    GettersNeverEmpty(r, env);
    var h := r.header;
    var value := match k
      case RequestId => RequestIdOf(h, env.uuid)
      case StoreId => StoreIdOf(h)
      case AcceptLanguage => LanguageOf(h)
      case Currency => CurrencyOf(h)
      case ChannelId => ChannelIdOf(h, env.device)
      case _ => ContentTypeOf(h);
    assert FromRequest(ValuesOf(r, env), k) == One(value);
  }
}
