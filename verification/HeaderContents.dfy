/** What the backend sees, header by header, in terms of the session and the request; and how that
    agrees with the user a limiter charges and with the partner data of member-auth. */
module HeaderContents {
  import opened Wrappers
  import opened Http
  import opened Text
  import opened MandatoryHeaders
  import opened BackendHeaders
  import MemberAuth
  import RateKey

  // ----- Numbers -----

  function ReadDigits(s: string): int {
    if s == "" then 0 else 10 * ReadDigits(s[..|s| - 1]) + (s[|s| - 1] as int - '0' as int)
  }

  /** Only digits, and no zero in front of others. */
  ghost predicate IsNumeral(s: string) {
    s != "" && (forall c <- s :: '0' <= c <= '9') && (|s| > 1 ==> s[0] != '0')
  }

  lemma {:induction false} DigitsAreRead(n: nat)
    ensures ReadDigits(DecimalDigits(n)) == n && IsNumeral(DecimalDigits(n)) && (n > 0 ==> DecimalDigits(n)[0] != '0')
  {
    var last := '0' + (n % 10) as char;
    if n >= 10 {
      DigitsAreRead(n / 10);
      var front := DecimalDigits(n / 10);
      assert DecimalDigits(n) == front + [last];
      assert (front + [last])[..|front|] == front;
    } else {
      assert DecimalDigits(n) == [last];
      assert [last][..0] == "";
      assert ReadDigits("") == 0;
    }
  }

  /** The text of a number: an optional minus and a numeral that reads as its absolute value. */
  lemma DecimalIsRead(n: int)
    ensures n >= 0 ==> IsNumeral(Decimal(n)) && ReadDigits(Decimal(n)) == n
    ensures n < 0 ==> Decimal(n)[0] == '-' && IsNumeral(Decimal(n)[1..]) && ReadDigits(Decimal(n)[1..]) == -n
  {
    DigitsAreRead(if n < 0 then -n else n);
  }

  // ----- With a session -----

  /** The header is the session's value, or what it would be without one. */
  ghost predicate Sees(r: Request, env: Env, k: HeaderKey, value: string, otherwise: Option<seq<string>>) {
    Lookup(Mandatory(r, env), k) == if value != "" then Some([value]) else otherwise
  }

  function Or<V>(a: Option<V>, b: Option<V>): Option<V> {
    if a.Some? then a else b
  }

  /** What the two tables of values give to the headers that a session can set. */
  lemma TableOfIds<V>(h: map<HeaderKey, V>, v: Values<V>, s: SessionValues<V>)
    ensures Primary(h, v, Some(s), Username) == Or(s.username, Some(v.username))
    ensures Primary(h, v, Some(s), BusinessId) == Or(s.businessId, Lookup(h, BusinessId))
    ensures Primary(h, v, Some(s), RoleId) == Or(s.role, Lookup(h, RoleId))
    ensures Primary(h, v, Some(s), AccountId) == Or(s.accountId, Some(v.accountId))
  {
  }

  lemma TableOfDetails<V>(h: map<HeaderKey, V>, v: Values<V>, s: SessionValues<V>)
    ensures Primary(h, v, Some(s), DeviceId) == Or(s.deviceId, Some(v.deviceId))
    ensures Primary(h, v, Some(s), LoginMedia) == Or(s.loginMedia, Lookup(h, LoginMedia))
    ensures Primary(h, v, Some(s), LoyaltyLevel) == Or(s.loyaltyKey, Lookup(h, LoyaltyLevel))
    ensures Primary(h, v, Some(s), IsVerifiedPhoneNumber) == Some(s.verified)
  {
  }

  lemma TableOfTokens<V>(h: map<HeaderKey, V>, v: Values<V>, s: SessionValues<V>)
    ensures Primary(h, v, Some(s), Authorization) == Primary(h, v, Some(s), TixToken) == Some(s.token)
    ensures Primary(h, v, Some(s), TixSession) == Some(s.tixSession)
  {
  }

  lemma LookupPrimary(r: Request, s: Session, env: Env, k: HeaderKey)
    requires r.session == Some(s) && k != Cookie && k != OldUsername && k != OldResellerId && k != OldUserAgent
    ensures Lookup(Mandatory(r, env), k) == Primary(r.header, ValuesOf(r, env), Some(SessionValuesOf(r, s)), k)
  {
    LookupMandatory(r, env, k);
    PrimaryIsExpected(r.header, ValuesOf(r, env), Some(SessionValuesOf(r, s)), k);
  }

  lemma PrimaryIsExpected(h: Header, v: Values<seq<string>>, s: Option<SessionValues<seq<string>>>, k: HeaderKey)
    requires k != Cookie && k != OldUsername && k != OldResellerId && k != OldUserAgent
    ensures ExpectedWith(h, v, s, k) == Primary(h, v, s, k)
  {
  }

  lemma SessionIdentifiers(r: Request, s: Session, env: Env)
    requires r.session == Some(s)
    ensures Sees(r, env, Username, s.username, Some(["guest"]))
    ensures Sees(r, env, BusinessId, s.businessId, Lookup(r.header, BusinessId))
    ensures Sees(r, env, RoleId, s.role, Lookup(r.header, RoleId))
  {
    TableOfIds(r.header, ValuesOf(r, env), SessionValuesOf(r, s));
    LookupPrimary(r, s, env, Username);
    LookupPrimary(r, s, env, BusinessId);
    LookupPrimary(r, s, env, RoleId);
  }

  lemma SessionDetails(r: Request, s: Session, env: Env)
    requires r.session == Some(s)
    ensures Sees(r, env, DeviceId, s.deviceId, Some([DeviceIdOf(r)]))
    ensures Sees(r, env, LoginMedia, s.loginMedia, Lookup(r.header, LoginMedia))
    ensures Sees(r, env, LoyaltyLevel, s.loyaltyKey, Lookup(r.header, LoyaltyLevel))
  {
    TableOfDetails(r.header, ValuesOf(r, env), SessionValuesOf(r, s));
    LookupPrimary(r, s, env, DeviceId);
    LookupPrimary(r, s, env, LoginMedia);
    LookupPrimary(r, s, env, LoyaltyLevel);
  }

  lemma SessionFlags(r: Request, s: Session, env: Env)
    requires r.session == Some(s)
    ensures Lookup(Mandatory(r, env), AccountId) == Some([if s.accountId == 0 then "0" else Decimal(s.accountId)])
    ensures Lookup(Mandatory(r, env), IsVerifiedPhoneNumber) == Some([if s.verifiedPhoneNumber then "true" else "false"])
  {
    TableOfIds(r.header, ValuesOf(r, env), SessionValuesOf(r, s));
    TableOfDetails(r.header, ValuesOf(r, env), SessionValuesOf(r, s));
    LookupPrimary(r, s, env, AccountId);
    LookupPrimary(r, s, env, IsVerifiedPhoneNumber);
  }

  lemma SessionTokens(r: Request, s: Session, env: Env)
    requires r.session == Some(s)
    ensures Lookup(Mandatory(r, env), Authorization) == Some([s.token])
    ensures Lookup(Mandatory(r, env), TixToken) == Some([s.token])
    ensures Lookup(Mandatory(r, env), TixSession) ==
            Some([if Cookie in r.header && "PHPSESSID" in r.cookies then r.cookies["PHPSESSID"] else ""])
  {
    TableOfTokens(r.header, ValuesOf(r, env), SessionValuesOf(r, s));
    LookupPrimary(r, s, env, Authorization);
    LookupPrimary(r, s, env, TixToken);
    LookupPrimary(r, s, env, TixSession);
  }

  // ----- With or without a session -----

  /** The headers that no session can set. */
  lemma TableOfRequest<V>(h: map<HeaderKey, V>, v: Values<V>, s: Option<SessionValues<V>>)
    ensures Primary(h, v, s, RequestId) == Some(v.requestId) && Primary(h, v, s, ServiceId) == Some(v.serviceId)
    ensures Primary(h, v, s, StoreId) == Some(v.storeId) && Primary(h, v, s, AcceptLanguage) == Some(v.language)
    ensures Primary(h, v, s, Currency) == Some(v.currency) && Primary(h, v, s, Identity) == Some(v.identity)
    ensures Primary(h, v, s, ResellerId) == Some(v.resellerId) && Primary(h, v, s, ResellerType) == Some(v.resellerType)
  {
  }

  lemma TableOfTransport<V>(h: map<HeaderKey, V>, v: Values<V>, s: Option<SessionValues<V>>)
    ensures Primary(h, v, s, TagAffId) == Some(v.tagAffId)
    ensures Primary(h, v, s, ForwardedFor) == Primary(h, v, s, TrueClientIp) == Some(v.clientIp)
    ensures Primary(h, v, s, ChannelId) == Some(v.channelId) && Primary(h, v, s, ContentType) == Some(v.contentType)
  {
  }

  lemma LookupAnyPrimary(r: Request, env: Env, k: HeaderKey)
    requires k != Cookie && k != OldUsername && k != OldResellerId && k != OldUserAgent
    ensures Lookup(Mandatory(r, env), k) == Primary(r.header, ValuesOf(r, env), SessionPart(r), k)
  {
    LookupMandatory(r, env, k);
    PrimaryIsExpected(r.header, ValuesOf(r, env), SessionPart(r), k);
  }

  lemma IdsSeen(r: Request, env: Env)
    ensures Lookup(Mandatory(r, env), RequestId) == Some([RequestIdOf(r.header, env.uuid)])
    ensures Lookup(Mandatory(r, env), ServiceId) == Some(["TTD_GATEWAY"])
    ensures Lookup(Mandatory(r, env), StoreId) == Some([StoreIdOf(r.header)])
    ensures Lookup(Mandatory(r, env), Identity) == Some([IdentityOf(r)])
  {
    TableOfRequest(r.header, ValuesOf(r, env), SessionPart(r));
    LookupAnyPrimary(r, env, RequestId);
    LookupAnyPrimary(r, env, ServiceId);
    LookupAnyPrimary(r, env, StoreId);
    LookupAnyPrimary(r, env, Identity);
  }

  lemma LocaleSeen(r: Request, env: Env)
    ensures Lookup(Mandatory(r, env), AcceptLanguage) == Some([LanguageOf(r.header)])
    ensures Lookup(Mandatory(r, env), Currency) == Some([CurrencyOf(r.header)])
    ensures Lookup(Mandatory(r, env), ResellerId) == Some([ResellerIdOf(r)])
    ensures Lookup(Mandatory(r, env), ResellerType) == Some([if ResellerIdOf(r) == "" then "" else "B2B_AFFILIATE"])
  {
    TableOfRequest(r.header, ValuesOf(r, env), SessionPart(r));
    LookupAnyPrimary(r, env, AcceptLanguage);
    LookupAnyPrimary(r, env, Currency);
    LookupAnyPrimary(r, env, ResellerId);
    LookupAnyPrimary(r, env, ResellerType);
  }

  lemma TransportSeen(r: Request, env: Env)
    ensures Lookup(Mandatory(r, env), TagAffId) == Some([TagAffIdOf(r)])
    ensures Lookup(Mandatory(r, env), ForwardedFor) == Lookup(Mandatory(r, env), TrueClientIp) == Some([ClientIp(r, env.localIp)])
    ensures Lookup(Mandatory(r, env), ChannelId) == Some([ChannelIdOf(r.header, env.device)])
    ensures Lookup(Mandatory(r, env), ContentType) == Some([ContentTypeOf(r.header)])
  {
    TableOfTransport(r.header, ValuesOf(r, env), SessionPart(r));
    LookupAnyPrimary(r, env, TagAffId);
    LookupAnyPrimary(r, env, ForwardedFor);
    LookupAnyPrimary(r, env, TrueClientIp);
    LookupAnyPrimary(r, env, ChannelId);
    LookupAnyPrimary(r, env, ContentType);
  }

  lemma TableOfGuests<V>(h: map<HeaderKey, V>, v: Values<V>)
    ensures Primary(h, v, None, Username) == Some(v.username) && Primary(h, v, None, AccountId) == Some(v.accountId)
    ensures Primary(h, v, None, DeviceId) == Some(v.deviceId) && Primary(h, v, None, IsVerifiedPhoneNumber) == Some(v.verified)
  {
  }

  /** Without a session the backend sees a guest, and whatever other session headers came in. */
  lemma GuestSeen(r: Request, env: Env)
    requires r.session == None
    ensures Lookup(Mandatory(r, env), Username) == Some(["guest"]) && Lookup(Mandatory(r, env), AccountId) == Some(["0"])
    ensures Lookup(Mandatory(r, env), DeviceId) == Some([DeviceIdOf(r)])
    ensures Lookup(Mandatory(r, env), IsVerifiedPhoneNumber) == Some(["false"])
  {
    TableOfGuests(r.header, ValuesOf(r, env));
    LookupAnyPrimary(r, env, Username);
    LookupAnyPrimary(r, env, AccountId);
    LookupAnyPrimary(r, env, DeviceId);
    LookupAnyPrimary(r, env, IsVerifiedPhoneNumber);
  }

  lemma GuestKeeps(r: Request, env: Env, k: HeaderKey)
    requires r.session == None && k in {BusinessId, RoleId, LoginMedia, LoyaltyLevel, Authorization, TixToken, TixSession}
    ensures Lookup(Mandatory(r, env), k) == Lookup(r.header, k)
  {
    LookupAnyPrimary(r, env, k);
    TableOfOthers(r.header, ValuesOf(r, env), k);
  }

  lemma TableOfOthers<V>(h: map<HeaderKey, V>, v: Values<V>, k: HeaderKey)
    requires k in {BusinessId, RoleId, LoginMedia, LoyaltyLevel, Authorization, TixToken, TixSession}
    ensures Primary(h, v, None, k) == Lookup(h, k)
  {
  }

  /** The copies under legacy names, and the cookies, which never reach the backend. */
  lemma LegacySeen(r: Request, env: Env)
    ensures Lookup(Mandatory(r, env), OldResellerId) == Some([ResellerIdOf(r)])
    ensures Lookup(Mandatory(r, env), OldUserAgent) ==
            if Get(r.header, OldUserAgent) == "" then Some([Get(r.header, UserAgent)]) else Lookup(r.header, OldUserAgent)
    ensures Cookie !in Mandatory(r, env)
  {
    LookupMandatory(r, env, OldResellerId);
    LookupMandatory(r, env, OldUserAgent);
    LookupMandatory(r, env, Cookie);
    ResellerCopy(r.header, ValuesOf(r, env), SessionPart(r));
    LegacyOf(r.header, ValuesOf(r, env), SessionPart(r));
  }

  lemma ResellerCopy(h: Header, v: Values<seq<string>>, s: Option<SessionValues<seq<string>>>)
    ensures ExpectedWith(h, v, s, OldResellerId) == One(FirstOf(Some(v.resellerId)))
  {
    TableOfRequest(h, v, s);
  }

  lemma LegacyOf(h: Header, v: Values<seq<string>>, s: Option<SessionValues<seq<string>>>)
    ensures ExpectedWith(h, v, s, OldUsername) == One(FirstOf(Primary(h, v, s, Username)))
    ensures ExpectedWith(h, v, s, OldUserAgent) == if Get(h, OldUserAgent) == "" then One(Get(h, UserAgent)) else Lookup(h, OldUserAgent)
    ensures ExpectedWith(h, v, s, Cookie) == None
  {
  }

  // ----- What the values are -----

  /** The first of these that is not empty, or the last. */
  function First3(a: string, b: string, c: string): string {
    if a != "" then a else if b != "" then b else c
  }

  lemma FirstOfTwoKeys(h: Header, a: HeaderKey, b: HeaderKey)
    ensures FirstNotEmpty(h, [a, b]) == if Get(h, a) != "" then Get(h, a) else Get(h, b)
  {
    assert [a, b][1..] == [b] && [b][1..] == [];
    assert FirstNotEmpty(h, [b]) == Get(h, b) by {
      assert FirstNotEmpty(h, []) == "";
    }
  }

  /** Each value comes from the header of its name, else from its legacy header, else from a cookie
      or a default. */
  lemma ValuesAre(r: Request)
    ensures StoreIdOf(r.header) == First3(Get(r.header, StoreId), Get(r.header, OldStoreId), "TIKETCOM")
    ensures DeviceIdOf(r) == First3(Get(r.header, DeviceId), Get(r.header, OldDeviceId), FindCookie(r, "deviceId"))
    ensures ResellerIdOf(r) == First3(Get(r.header, ResellerId), Get(r.header, OldResellerId), FindCookie(r, "twh"))
    ensures IdentityOf(r) == if DeviceIdOf(r) != "" then DeviceIdOf(r) else FindCookie(r, "PHPSESSID")
    ensures TagAffIdOf(r) == if Get(r.header, TagAffId) != "" then Get(r.header, TagAffId) else QueryGet(r, "tag_aff_id")
    ensures ContentTypeOf(r.header) == if Get(r.header, ContentType) != "" then Get(r.header, ContentType) else "application/json; charset=utf-8"
  {
    FirstOfTwoKeys(r.header, StoreId, OldStoreId);
    FirstOfTwoKeys(r.header, DeviceId, OldDeviceId);
    FirstOfTwoKeys(r.header, ResellerId, OldResellerId);
  }

  /** Language and currency, in upper case, with their defaults. */
  lemma LocaleIs(h: Header)
    ensures CurrencyOf(h) == ToUpper(First3(Get(h, Currency), Get(h, OldCurrency), "IDR"))
    ensures LanguageOf(h) == ToUpper(First3(Get(h, AcceptLanguage), Get(h, OldLang), if Get(h, OldLanguage) != "" then Get(h, OldLanguage) else "ID"))
  {
    FirstOfTwoKeys(h, Currency, OldCurrency);
    FirstOfTwoKeys(h, OldLang, OldLanguage);
    assert [AcceptLanguage, OldLang, OldLanguage][1..] == [OldLang, OldLanguage];
    assert ToUpper("ID") == "ID" && ToUpper("IDR") == "IDR";
  }

  /** The channel of a web view is its platform, and otherwise the class of the user agent. */
  lemma ChannelIs(h: Header, device: string -> Device)
    ensures ChannelIdOf(h, device) == "ANDROID" <==> Get(h, ChannelIdV2) == "WEBVIEW" && Get(h, PlatformV2) == "ANDROID"
    ensures ChannelIdOf(h, device) == "IOS" <==> Get(h, ChannelIdV2) == "WEBVIEW" && Get(h, PlatformV2) == "IOS"
    ensures ChannelIdOf(h, device) == "DESKTOP" <==>
            Get(h, ChannelIdV2) != "WEBVIEW" && Get(h, UserAgent) != "" && device(Get(h, UserAgent)) == Desktop
    ensures ChannelIdOf(h, device) == "MOBILE" <==>
            Get(h, ChannelIdV2) != "WEBVIEW" && Get(h, UserAgent) != "" && device(Get(h, UserAgent)) == Mobile
    ensures ChannelIdOf(h, device) in {"ANDROID", "IOS", "DESKTOP", "MOBILE", "UNKNOWN", "WEBVIEW_UNKNOWN"}
    ensures ChannelIdOf(h, device) == "UNKNOWN" ==> Get(h, ChannelIdV2) != "WEBVIEW"
  {
    var a, i, d, m, u, w := "ANDROID", "IOS", "DESKTOP", "MOBILE", "UNKNOWN", "WEBVIEW_UNKNOWN";
    assert |a| == 7 && |i| == 3 && |d| == 7 && |m| == 6 && |u| == 7 && |w| == 15;
    assert a[0] == 'A' && d[0] == 'D' && u[0] == 'U';
  }

  /** The request ID is the UUID, behind the first 13 characters of what the client sent, if it sent
      anything but "NONE". */
  lemma RequestIdIs(h: Header, uuid: string)
    ensures var client := if Get(h, RequestId) != "" then Get(h, RequestId) else Get(h, OldRequestId);
            && (client == "" || client == "NONE" ==> RequestIdOf(h, uuid) == uuid)
            && (client != "" && client != "NONE" && |client| <= 13 ==> RequestIdOf(h, uuid) == client + "." + uuid)
            && (|client| > 13 ==> RequestIdOf(h, uuid) == client[..13] + "." + uuid)
  {
    FirstOfTwoKeys(h, RequestId, OldRequestId);
    var client := if Get(h, RequestId) != "" then Get(h, RequestId) else Get(h, OldRequestId);
    assert |client| == 13 ==> client[..13] == client;
  }

  /** A usable address. */
  ghost predicate Usable(ip: string) {
    ip != "" && !EqualFold(ip, "unknown")
  }

  lemma UnknownFolds()
    ensures ToLower("unknown") == ToLower("UNKNOWN")
  {
  }

  lemma UsableIsGood(ip: string)
    ensures GoodIp(ip) <==> Usable(ip)
  {
    UnknownFolds();
  }

  lemma SourcesInOrder(h: Header)
    ensures PickIp(h, IP_SOURCES) ==
            if GoodIp(Get(h, TrueClientIp)) then Get(h, TrueClientIp)
            else if GoodIp(Get(h, ForwardedFor)) then Get(h, ForwardedFor)
            else if GoodIp(Get(h, ProxyClientIp)) then Get(h, ProxyClientIp)
            else Get(h, RealIp)
  {
    var three, two := [ForwardedFor, ProxyClientIp, RealIp], [ProxyClientIp, RealIp];
    assert IP_SOURCES[1..] == three && three[1..] == two && two[1..] == [RealIp];
    assert PickIp(h, [RealIp]) == Get(h, RealIp);
    assert PickIp(h, two) == if GoodIp(Get(h, ProxyClientIp)) then Get(h, ProxyClientIp) else Get(h, RealIp);
    assert PickIp(h, three) == if GoodIp(Get(h, ForwardedFor)) then Get(h, ForwardedFor) else PickIp(h, two);
  }

  /** The client address: the first usable source, up to its comma. Without one it is the address of
      the gateway for a local caller, and otherwise what X-Real-Ip holds. */
  lemma ClientIpIs(r: Request, localIp: string)
    ensures var h := r.header;
            var lastSource := Get(h, RealIp);
            ClientIp(r, localIp) ==
            if Usable(Get(h, TrueClientIp)) then FirstAddress(Get(h, TrueClientIp))
            else if Usable(Get(h, ForwardedFor)) then FirstAddress(Get(h, ForwardedFor))
            else if Usable(Get(h, ProxyClientIp)) then FirstAddress(Get(h, ProxyClientIp))
            else if Usable(lastSource) then FirstAddress(lastSource)
            else if r.remoteHost == Some("127.0.0.1") || r.remoteHost == Some("0:0:0:0:0:0:0:1") then FirstAddress(localIp)
            else lastSource
  {
    var h := r.header;
    SourcesInOrder(h);
    UsableIsGood(Get(h, TrueClientIp));
    UsableIsGood(Get(h, ForwardedFor));
    UsableIsGood(Get(h, ProxyClientIp));
    UsableIsGood(Get(h, RealIp));
    if !Usable(Get(h, RealIp)) {
      UnusableIsKept(Get(h, RealIp));
    }
  }

  lemma UnusableIsKept(ip: string)
    requires !Usable(ip)
    ensures FirstAddress(ip) == ip
  {
    if ip != "" {
      var unknown := "unknown";
      assert |ToLower(ip)| == |ToLower(unknown)|;
      forall i | 0 <= i < |ip| ensures ip[i] != ',' {
        assert ToLower(ip)[i] == ToLower(unknown)[i] && unknown[i] != ',';
      }
    }
  }

  /** Up to the first comma, trimmed; an address that starts with a comma is kept whole. */
  lemma FirstAddressIs(a: string, rest: string)
    requires ',' !in a
    ensures FirstAddress(a) == a
    ensures FirstAddress(a + "," + rest) == if a == "" then "," + rest else TrimSpace(a)
  {
    var s := a + "," + rest;
    assert s[|a|] == ',' && forall i :: 0 <= i < |a| ==> s[i] == a[i];
    assert IndexOf(s, ',') == |a|;
    assert s[..|a|] == a;
    assert a == "" ==> s == "," + rest;
  }

  // ----- The user, the business and the role -----

  /** The user name that the backend sees, under both its names. */
  lemma UserSeen(r: Request, env: Env)
    ensures var u := match r.session case Some(s) => (if s.username != "" then s.username else "guest") case None => "guest";
            Lookup(Mandatory(r, env), Username) == Some([u]) && Lookup(Mandatory(r, env), OldUsername) == Some([u])
  {
    LookupAnyPrimary(r, env, Username);
    LookupMandatory(r, env, OldUsername);
    LegacyOf(r.header, ValuesOf(r, env), SessionPart(r));
    UserValue(r, env);
  }

  lemma UserValue(r: Request, env: Env)
    ensures Primary(r.header, ValuesOf(r, env), SessionPart(r), Username) ==
            Some([match r.session case Some(s) => (if s.username != "" then s.username else "guest") case None => "guest"])
  {
    if r.session.Some? {
      TableOfIds(r.header, ValuesOf(r, env), SessionValuesOf(r, r.session.value));
    } else {
      TableOfGuests(r.header, ValuesOf(r, env));
    }
  }

  /** The user that a limiter charges is the one the backend sees, letter case aside, exactly unless
      there is a session without a user name: that is charged to the empty user, but the backend
      sees "guest". */
  lemma ChargedUserIsSeen(r: Request, env: Env, u: string)
    requires Lookup(Mandatory(r, env), Username) == Some([u])
    ensures RateKey.UserPart(r) == ToLower(u) <==> !(r.session.Some? && r.session.value.username == "")
    ensures Lookup(Mandatory(r, env), OldUsername) == Some([u])
  {
    UserSeen(r, env);
    assert |ToLower("guest")| == 5 && |ToLower("")| == 0;
  }

  /** After member-auth, the business ID and the role that the backend sees are those that the partner
      data fixes, unless these are empty. */
  lemma OverrideIsSeen(q: Request, s: Session, s': Session, token: string, r: Request, env: Env, business: string, role: string)
    requires MemberAuth.Adjusted(q, s, s') && EqualFold(Get(q.header, BusinessType), "event_partner")
    requires r.session == Some(s'.(token := token))
    requires MemberAuth.Overridden(s.additionalData, MemberAuth.Business, s.businessId, business)
    requires MemberAuth.Overridden(s.additionalData, MemberAuth.Role, s.role, role)
    ensures business != "" ==> Lookup(Mandatory(r, env), BusinessId) == Some([business])
    ensures role != "" ==> Lookup(Mandatory(r, env), RoleId) == Some([role])
  {
    OverrideFixes(q, s, s', business, role);
    SessionIdentifiers(r, s'.(token := token), env);
  }

  lemma OverrideFixes(q: Request, s: Session, s': Session, business: string, role: string)
    requires MemberAuth.Adjusted(q, s, s') && MemberAuth.IsEventPartner(q)
    requires MemberAuth.Overridden(s.additionalData, MemberAuth.Business, s.businessId, business)
    requires MemberAuth.Overridden(s.additionalData, MemberAuth.Role, s.role, role)
    ensures s'.businessId == business && s'.role == role
  {
    assert MemberAuth.SessionField(s, MemberAuth.Business) == s.businessId && MemberAuth.SessionField(s, MemberAuth.Role) == s.role;
    MemberAuth.OverrideIsUnique(s.additionalData, MemberAuth.Business, s.businessId, business, MemberAuth.SessionField(s', MemberAuth.Business));
    MemberAuth.OverrideIsUnique(s.additionalData, MemberAuth.Role, s.role, role, MemberAuth.SessionField(s', MemberAuth.Role));
  }
}
