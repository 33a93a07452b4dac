/** Sending a request through a second gateway: what the header rewriting touches, and exactly
    when doing it twice changes nothing but the request ID. */
module HeaderFixpoint {
  import opened Wrappers
  import opened Http
  import opened Text
  import opened MandatoryHeaders
  import opened BackendHeaders

  /** All other headers come out as they came in. */
  lemma OthersUntouched(r: Request, env: Env, k: HeaderKey)
    requires k !in TOUCHED
    ensures Lookup(Mandatory(r, env), k) == Lookup(r.header, k)
  {
    LookupMandatory(r, env, k);
    OthersExpected(r.header, ValuesOf(r, env), SessionPart(r), k);
  }

  // ----- One getter at a time, on the headers h1 that the first application produced -----

  lemma FirstOfTwo(h: Header, k: HeaderKey, k': HeaderKey)
    ensures FirstNotEmpty(h, [k, k']) == OrElse(Get(h, k), Get(h, k'))
  {
    assert FirstNotEmpty(h, []) == "" && [k'][1..] == [];
    assert FirstNotEmpty(h, [k']) == Get(h, k');
    assert [k, k'][1..] == [k'];
  }

  lemma StoreIdTwice(h: Header, h1: Header)
    requires Get(h1, StoreId) == StoreIdOf(h)
    ensures StoreIdOf(h1) == StoreIdOf(h)
  {
    FirstOfTwo(h1, StoreId, OldStoreId);
  }

  lemma LanguageTwice(h: Header, h1: Header)
    requires Get(h1, AcceptLanguage) == LanguageOf(h)
    ensures LanguageOf(h1) == LanguageOf(h)
  {
    var language := FirstNotEmpty(h, [AcceptLanguage, OldLang, OldLanguage]);
    ToUpperTwice(language);
    assert ToUpper("ID") == "ID";
  }

  lemma CurrencyTwice(h: Header, h1: Header)
    requires Get(h1, Currency) == CurrencyOf(h)
    ensures CurrencyOf(h1) == CurrencyOf(h)
  {
    var currency := FirstNotEmpty(h, [Currency, OldCurrency]);
    ToUpperTwice(currency);
    assert ToUpper("IDR") == "IDR";
  }

  lemma DeviceIdTwice(r: Request, r1: Request)
    requires Get(r1.header, DeviceId) == DeviceIdOf(r) && Get(r1.header, OldDeviceId) == Get(r.header, OldDeviceId)
    requires Cookie !in r1.header
    ensures DeviceIdOf(r1) == DeviceIdOf(r)
  {
    FirstOfTwo(r.header, DeviceId, OldDeviceId);
    FirstOfTwo(r1.header, DeviceId, OldDeviceId);
  }

  lemma ResellerIdTwice(r: Request, r1: Request)
    requires Get(r1.header, ResellerId) == ResellerIdOf(r) == Get(r1.header, OldResellerId)
    requires Cookie !in r1.header
    ensures ResellerIdOf(r1) == ResellerIdOf(r)
  {
    FirstOfTwo(r.header, ResellerId, OldResellerId);
    FirstOfTwo(r1.header, ResellerId, OldResellerId);
  }

  lemma TagAffIdTwice(r: Request, r1: Request)
    requires Get(r1.header, TagAffId) == TagAffIdOf(r) && r1.query == r.query
    ensures TagAffIdOf(r1) == TagAffIdOf(r)
  {
  }

  lemma ContentTypeTwice(h: Header, h1: Header)
    requires Get(h1, ContentType) == ContentTypeOf(h)
    ensures ContentTypeOf(h1) == ContentTypeOf(h)
  {
  }

  // ----- The client address -----

  lemma {:induction false} IndexOfPrefix(s: string, c: char)
    ensures c !in s[..IndexOf(s, c)]
  {
  }

  lemma NoCommaIsKept(ip: string)
    requires ',' !in ip
    ensures FirstAddress(ip) == ip
  {
  }

  /** Cutting at the first comma once is enough. */
  lemma FirstAddressTwice(ip: string)
    ensures FirstAddress(FirstAddress(ip)) == FirstAddress(ip)
  {
    var j := IndexOf(ip, ',');
    if 0 < j < |ip| {
      IndexOfPrefix(ip, ',');
      TrimSpaceMembers(ip[..j]);
      NoCommaIsKept(TrimSpace(ip[..j]));
    }
  }

  /** The address found without looking at the two headers that the rewriting sets. */
  function FallbackIp(r: Request, localIp: string): string {
    var picked := PickIp(r.header, [ProxyClientIp, RealIp]);
    if GoodIp(picked) then FirstAddress(picked) else RemoteAddress(r, localIp)
  }

  /** The client address is found again: it is a good one, or the other sources give it, too. */
  predicate StableIp(r: Request, localIp: string) {
    GoodIp(ClientIp(r, localIp)) || ClientIp(r, localIp) == FallbackIp(r, localIp)
  }

  lemma ClientIpTwice(r: Request, r1: Request, localIp: string)
    requires Get(r1.header, TrueClientIp) == Get(r1.header, ForwardedFor) == ClientIp(r, localIp)
    requires Get(r1.header, ProxyClientIp) == Get(r.header, ProxyClientIp)
    requires Get(r1.header, RealIp) == Get(r.header, RealIp) && r1.remoteHost == r.remoteHost
    ensures ClientIp(r1, localIp) == ClientIp(r, localIp) <==> StableIp(r, localIp)
  {
    var ip := ClientIp(r, localIp);
    assert IP_SOURCES[1..] == [ForwardedFor, ProxyClientIp, RealIp];
    assert IP_SOURCES[1..][1..] == [ProxyClientIp, RealIp];
    assert [ProxyClientIp, RealIp][1..] == [RealIp];
    if GoodIp(ip) {
      assert PickIp(r1.header, IP_SOURCES) == ip;
      FirstAddressOfClientIp(r, localIp);
    } else {
      assert PickIp(r1.header, IP_SOURCES) == PickIp(r1.header, [ProxyClientIp, RealIp]);
      assert PickIp(r1.header, [ProxyClientIp, RealIp]) == PickIp(r.header, [ProxyClientIp, RealIp]);
    }
  }

  lemma FirstAddressOfClientIp(r: Request, localIp: string)
    requires GoodIp(ClientIp(r, localIp))
    ensures FirstAddress(ClientIp(r, localIp)) == ClientIp(r, localIp)
  {
    var picked := PickIp(r.header, IP_SOURCES);
    if GoodIp(picked) {
      FirstAddressTwice(picked);
    } else {
      PickIpIsGoodOrLast(r.header, IP_SOURCES);
      assert IP_SOURCES[|IP_SOURCES| - 1] == RealIp;
      if r.remoteHost.Some? {
        FirstAddressTwice(localIp);
        FirstAddressTwice(picked);
      }
    }
  }

  // ----- The second application -----

  /** h is what the rewriting makes of the headers h0 without a session: the computed values v,
      the legacy copies, and everything else as it came. */
  ghost predicate Rewritten(h0: Header, v: Values<seq<string>>, h: Header) {
    forall k :: Lookup(h, k) == ExpectedWith(h0, v, None, k)
  }

  lemma Given(h0: Header, v: Values<seq<string>>, h: Header, k: HeaderKey)
    requires Rewritten(h0, v, h) && FromRequest(v, k).Some?
    ensures Lookup(h, k) == FromRequest(v, k)
  {
    assert Lookup(h, k) == ExpectedWith(h0, v, None, k);
  }

  lemma Kept(h0: Header, v: Values<seq<string>>, h: Header, k: HeaderKey)
    requires Rewritten(h0, v, h) && FromRequest(v, k).None?
    requires k != Cookie && k != OldUsername && k != OldResellerId && k != OldUserAgent
    ensures Lookup(h, k) == Lookup(h0, k) && Get(h, k) == Get(h0, k)
  {
    assert Lookup(h, k) == ExpectedWith(h0, v, None, k);
  }

  /** Without the cookie header the second gateway finds no cookies. The identity is found again
      unless it came from the session cookie. */
  predicate StableIdentity(r: Request) {
    DeviceIdOf(r) != "" || FindCookie(r, "PHPSESSID") == ""
  }

  lemma DeviceAndIdentityTwice(r: Request, v: Values<seq<string>>, h: Header)
    requires Rewritten(r.header, v, h) && v.deviceId == [DeviceIdOf(r)]
    ensures DeviceIdOf(r.(header := h)) == DeviceIdOf(r)
    ensures IdentityOf(r.(header := h)) == IdentityOf(r) <==> StableIdentity(r)
  {
    Given(r.header, v, h, DeviceId);
    Kept(r.header, v, h, OldDeviceId);
    assert Lookup(h, Cookie) == None;
    DeviceIdTwice(r, r.(header := h));
  }

  lemma AddressTwice(r: Request, v: Values<seq<string>>, h: Header, localIp: string)
    requires Rewritten(r.header, v, h) && v.clientIp == [ClientIp(r, localIp)]
    ensures ClientIp(r.(header := h), localIp) == ClientIp(r, localIp) <==> StableIp(r, localIp)
  {
    Given(r.header, v, h, TrueClientIp);
    Given(r.header, v, h, ForwardedFor);
    Kept(r.header, v, h, ProxyClientIp);
    Kept(r.header, v, h, RealIp);
    ClientIpTwice(r, r.(header := h), localIp);
  }

  lemma ResellerAndTagTwice(r: Request, v: Values<seq<string>>, h: Header)
    requires Rewritten(r.header, v, h) && v.resellerId == [ResellerIdOf(r)] && v.tagAffId == [TagAffIdOf(r)]
    ensures ResellerIdOf(r.(header := h)) == ResellerIdOf(r)
    ensures TagAffIdOf(r.(header := h)) == TagAffIdOf(r)
  {
    Given(r.header, v, h, ResellerId);
    Given(r.header, v, h, TagAffId);
    assert Lookup(h, OldResellerId) == One(v.resellerId[0]);
    assert Lookup(h, Cookie) == None;
    ResellerIdTwice(r, r.(header := h));
    TagAffIdTwice(r, r.(header := h));
  }

  lemma LocaleTwice(h0: Header, v: Values<seq<string>>, h: Header)
    requires Rewritten(h0, v, h)
    requires v.storeId == [StoreIdOf(h0)] && v.language == [LanguageOf(h0)] && v.currency == [CurrencyOf(h0)]
    requires v.contentType == [ContentTypeOf(h0)]
    ensures StoreIdOf(h) == StoreIdOf(h0) && LanguageOf(h) == LanguageOf(h0)
    ensures CurrencyOf(h) == CurrencyOf(h0) && ContentTypeOf(h) == ContentTypeOf(h0)
  {
    Given(h0, v, h, StoreId);
    Given(h0, v, h, AcceptLanguage);
    Given(h0, v, h, Currency);
    Given(h0, v, h, ContentType);
    StoreIdTwice(h0, h);
    LanguageTwice(h0, h);
    CurrencyTwice(h0, h);
    ContentTypeTwice(h0, h);
  }

  lemma ChannelTwice(h0: Header, v: Values<seq<string>>, h: Header, device: string -> Device)
    requires Rewritten(h0, v, h)
    ensures ChannelIdOf(h, device) == ChannelIdOf(h0, device)
  {
    Kept(h0, v, h, ChannelIdV2);
    Kept(h0, v, h, PlatformV2);
    Kept(h0, v, h, UserAgent);
  }

  /** All computed values but the request ID are found again exactly when identity and address are. */
  lemma ValuesTwice(r: Request, env: Env, h: Header, uuid: string)
    requires Rewritten(r.header, ValuesOf(r, env), h)
    ensures var v, v' := ValuesOf(r, env), ValuesOf(r.(header := h), env.(uuid := uuid));
            && v' == v.(requestId := v'.requestId, identity := v'.identity, clientIp := v'.clientIp)
            && (v'.identity == v.identity <==> StableIdentity(r))
            && (v'.clientIp == v.clientIp <==> StableIp(r, env.localIp))
  {
    var v := ValuesOf(r, env);
    DeviceAndIdentityTwice(r, v, h);
    AddressTwice(r, v, h, env.localIp);
    ResellerAndTagTwice(r, v, h);
    LocaleTwice(r.header, v, h);
    ChannelTwice(r.header, v, h, env.device);
  }

  /** Two rewritings in a row, on the level of the values: the second changes header k exactly
      if it computes another value for it. */
  lemma RewrittenTwice(h0: Header, v: Values<seq<string>>, h: Header, v': Values<seq<string>>, h': Header, k: HeaderKey)
    requires Rewritten(h0, v, h) && Rewritten(h, v', h')
    requires v'.username == v.username && v'.resellerId == v.resellerId && |v.username| == |v.resellerId| == 1
    ensures Lookup(h', k) == Lookup(h, k) <==> FromRequest(v', k) == FromRequest(v, k)
  {
    assert Lookup(h', k) == ExpectedWith(h, v', None, k);
    assert Lookup(h, k) == ExpectedWith(h0, v, None, k);
    match k {
      case OldUserAgent =>
        Kept(h0, v, h, UserAgent);
      case _ =>
    }
  }

  ghost predicate OnlyRequestIdDiffers(h: Header, h': Header) {
    forall k :: k != RequestId ==> Lookup(h', k) == Lookup(h, k)
  }

  lemma SecondRewriting(r: Request, env: Env, uuid: string, h: Header, h': Header)
    requires Rewritten(r.header, ValuesOf(r, env), h)
    requires Rewritten(h, ValuesOf(r.(header := h), env.(uuid := uuid)), h')
    ensures OnlyRequestIdDiffers(h, h') <==> StableIdentity(r) && StableIp(r, env.localIp)
  {
    var v, v' := ValuesOf(r, env), ValuesOf(r.(header := h), env.(uuid := uuid));
    ValuesTwice(r, env, h, uuid);
    forall k ensures Lookup(h', k) == Lookup(h, k) <==> FromRequest(v', k) == FromRequest(v, k) {
      RewrittenTwice(r.header, v, h, v', h', k);
    }
    SameValues(v, v');
  }

  lemma SameValues<V>(v: Values<V>, v': Values<V>)
    requires v' == v.(requestId := v'.requestId, identity := v'.identity, clientIp := v'.clientIp)
    ensures (forall k :: k != RequestId ==> FromRequest(v', k) == FromRequest(v, k)) <==> v'.identity == v.identity && v'.clientIp == v.clientIp
  {
    assert FromRequest(v', Identity) == FromRequest(v, Identity) <==> v'.identity == v.identity;
    assert FromRequest(v', TrueClientIp) == FromRequest(v, TrueClientIp) <==> v'.clientIp == v.clientIp;
  }

  lemma MandatoryIsRewritten(r: Request, env: Env)
    requires r.session.None?
    ensures Rewritten(r.header, ValuesOf(r, env), Mandatory(r, env))
  {
    forall k ensures Lookup(Mandatory(r, env), k) == ExpectedWith(r.header, ValuesOf(r, env), None, k) {
      LookupMandatory(r, env, k);
    }
  }

  /** Without a session, a second gateway that sees the same URL and remote address changes nothing
      but the request ID, exactly when the identity did not come from the session cookie and the
      client address is found again; the latter holds whenever that address is neither empty nor
      "unknown". */
  lemma SecondApplication(r: Request, env: Env, uuid: string)
    requires r.session.None?
    ensures var h := Mandatory(r, env);
            OnlyRequestIdDiffers(h, Mandatory(r.(header := h), env.(uuid := uuid))) <==> StableIdentity(r) && StableIp(r, env.localIp)
  {
    var h := Mandatory(r, env);
    MandatoryIsRewritten(r, env);
    MandatoryIsRewritten(r.(header := h), env.(uuid := uuid));
    SecondRewriting(r, env, uuid, h, Mandatory(r.(header := h), env.(uuid := uuid)));
  }

  /** It fails for every request with a session cookie and no device ID: the first gateway takes
      the cookie for the identity and drops it, so the second sends an empty identity. */
  lemma CookieIdentityIsLost(r: Request, env: Env, uuid: string)
    requires r.session.None? && DeviceIdOf(r) == ""
    ensures var h := Mandatory(r, env);
            var h' := Mandatory(r.(header := h), env.(uuid := uuid));
            Lookup(h, Identity) == One(FindCookie(r, "PHPSESSID")) && Lookup(h', Identity) == One("")
  {
    var h := Mandatory(r, env);
    SentTwice(r, env, uuid, h);
    MandatoryIsRewritten(r, env);
    IdentityLost(r, ValuesOf(r, env), h);
  }

  lemma IdentityLost(r: Request, v: Values<seq<string>>, h: Header)
    requires Rewritten(r.header, v, h) && v.deviceId == [DeviceIdOf(r)] && DeviceIdOf(r) == ""
    ensures IdentityOf(r) == FindCookie(r, "PHPSESSID") && IdentityOf(r.(header := h)) == ""
  {
    DeviceAndIdentityTwice(r, v, h);
    assert Lookup(h, Cookie) == ExpectedWith(r.header, v, None, Cookie);
  }

  /** Such a request: GET with nothing but a session cookie. */
  lemma RequestWithSessionCookie(id: string)
    ensures var r := Request("GET", map[Cookie := ["PHPSESSID=" + id]], map["PHPSESSID" := id], map[], None, None);
            DeviceIdOf(r) == "" && FindCookie(r, "PHPSESSID") == id && (id != "" ==> !StableIdentity(r))
  {
    var r := Request("GET", map[Cookie := ["PHPSESSID=" + id]], map["PHPSESSID" := id], map[], None, None);
    FirstOfTwo(r.header, DeviceId, OldDeviceId);
  }

  /** It fails for every request whose first address, cut at the comma, is no longer good while
      another source has a good one: the second gateway takes that. */
  lemma CutAddressIsReplaced(r: Request, env: Env, uuid: string)
    requires r.session.None? && !GoodIp(ClientIp(r, env.localIp)) && GoodIp(PickIp(r.header, [ProxyClientIp, RealIp]))
    ensures var h := Mandatory(r, env);
            var h' := Mandatory(r.(header := h), env.(uuid := uuid));
            && Lookup(h, TrueClientIp) == One(ClientIp(r, env.localIp))
            && Lookup(h', TrueClientIp) == One(FirstAddress(PickIp(r.header, [ProxyClientIp, RealIp])))
  {
    var h := Mandatory(r, env);
    SentTwice(r, env, uuid, h);
    MandatoryIsRewritten(r, env);
    FallbackAddress(r, ValuesOf(r, env), h, env.localIp);
  }

  lemma SentTwice(r: Request, env: Env, uuid: string, h: Header)
    requires r.session.None? && h == Mandatory(r, env)
    ensures var r' := r.(header := h);
            var h' := Mandatory(r', env.(uuid := uuid));
            && Lookup(h, Identity) == One(IdentityOf(r)) && Lookup(h', Identity) == One(IdentityOf(r'))
            && Lookup(h, TrueClientIp) == One(ClientIp(r, env.localIp)) && Lookup(h', TrueClientIp) == One(ClientIp(r', env.localIp))
  {
    Sent(r, env);
    Sent(r.(header := h), env.(uuid := uuid));
  }

  lemma Sent(r: Request, env: Env)
    requires r.session.None?
    ensures Lookup(Mandatory(r, env), Identity) == One(IdentityOf(r))
    ensures Lookup(Mandatory(r, env), TrueClientIp) == One(ClientIp(r, env.localIp))
  {
    MandatoryIsRewritten(r, env);
    SentValues(r.header, ValuesOf(r, env), Mandatory(r, env));
  }

  lemma SentValues(h0: Header, v: Values<seq<string>>, h: Header)
    requires Rewritten(h0, v, h)
    ensures Lookup(h, Identity) == Some(v.identity) && Lookup(h, TrueClientIp) == Some(v.clientIp)
  {
    Given(h0, v, h, Identity);
    Given(h0, v, h, TrueClientIp);
  }

  lemma FallbackAddress(r: Request, v: Values<seq<string>>, h: Header, localIp: string)
    requires Rewritten(r.header, v, h) && v.clientIp == [ClientIp(r, localIp)]
    requires !GoodIp(ClientIp(r, localIp)) && GoodIp(PickIp(r.header, [ProxyClientIp, RealIp]))
    ensures ClientIp(r.(header := h), localIp) == FirstAddress(PickIp(r.header, [ProxyClientIp, RealIp]))
  {
    Given(r.header, v, h, TrueClientIp);
    Given(r.header, v, h, ForwardedFor);
    Kept(r.header, v, h, ProxyClientIp);
    Kept(r.header, v, h, RealIp);
    SkipBad(h);
    assert [ProxyClientIp, RealIp][1..] == [RealIp];
    assert PickIp(h, [ProxyClientIp, RealIp]) == PickIp(r.header, [ProxyClientIp, RealIp]);
  }

  lemma SkipBad(h: Header)
    requires !GoodIp(Get(h, TrueClientIp)) && !GoodIp(Get(h, ForwardedFor))
    ensures PickIp(h, IP_SOURCES) == PickIp(h, [ProxyClientIp, RealIp])
  {
    assert IP_SOURCES[1..] == [ForwardedFor, ProxyClientIp, RealIp];
    assert IP_SOURCES[1..][1..] == [ProxyClientIp, RealIp];
  }

  /** Such a request: a list of addresses that starts with "unknown", and another good source. */
  lemma RequestFromUnknown(r: Request, localIp: string)
    requires Get(r.header, TrueClientIp) == "unknown,1" && Get(r.header, ProxyClientIp) == "" && Get(r.header, RealIp) == "10.9.8.7"
    ensures ClientIp(r, localIp) == "unknown" && !GoodIp("unknown")
    ensures PickIp(r.header, [ProxyClientIp, RealIp]) == "10.9.8.7" == FirstAddress("10.9.8.7") && GoodIp("10.9.8.7")
    ensures !StableIp(r, localIp)
  {
    UnknownIsCut(Get(r.header, TrueClientIp));
    LongerIsGood(Get(r.header, TrueClientIp));
    LongerIsGood(Get(r.header, RealIp));
    NoCommaIsKept(Get(r.header, RealIp));
    PickedFrom(r.header, Get(r.header, TrueClientIp), Get(r.header, RealIp));
    UnknownIsBad();
  }

  lemma UnknownIsBad()
    ensures !GoodIp("unknown")
  {
    assert ToLower("unknown") == ToLower("UNKNOWN");
  }

  lemma PickedFrom(h: Header, first: string, last: string)
    requires Get(h, TrueClientIp) == first && Get(h, ProxyClientIp) == "" && Get(h, RealIp) == last
    ensures GoodIp(first) ==> PickIp(h, IP_SOURCES) == first
    ensures PickIp(h, [ProxyClientIp, RealIp]) == last
  {
    assert [ProxyClientIp, RealIp][1..] == [RealIp];
  }

  lemma LongerIsGood(ip: string)
    requires |ip| > 7
    ensures GoodIp(ip)
  {
    assert |ToLower("UNKNOWN")| == 7;
  }

  lemma UnknownIsCut(s: string)
    requires s == "unknown,1"
    ensures FirstAddress(s) == "unknown"
  {
    assert s[7] == ',' && IndexOf(s, ',') == 7;
    assert s[..7] == "unknown";
  }
}
