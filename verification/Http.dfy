/** Requests, headers, sessions and responses, as far as the middlewares look at them. */
module Http {
  import opened Wrappers

  /** Header names in canonical form. The names the program uses are pairwise different after
      canonicalisation, so each is a constructor of its own; all others are `Other`. */
  datatype HeaderKey =
    | RequestId | ServiceId | Username | StoreId | BusinessId | AccountId | AcceptLanguage | Currency
    | DeviceId | Identity | ResellerId | ResellerType | LoyaltyLevel | ChannelId | ChannelIdV2 | TagAffId
    | ForwardedFor | TrueClientIp | ProxyClientIp | RealIp | PlatformV2 | LoginMedia | RoleId
    | IsVerifiedPhoneNumber | UserAgent | Cookie | BusinessType | ContentType | ContentLength
    | Authorization | AccessToken | TixToken | TixSession
    | OldUsername | OldRequestId | OldStoreId | OldCurrency | OldResellerId | OldLang | OldLanguage
    | OldDeviceId | OldUserAgent
    | Other(name: string)

  type Header = map<HeaderKey, seq<string>>

  /** The first value of a header, or the empty string. */
  function Get(h: Header, k: HeaderKey): string {
    if k in h && h[k] != [] then h[k][0] else ""
  }

  /** A header has its first value, and the empty string if it is missing. */
  lemma GetIsFirst(h: Header, k: HeaderKey, v: string, more: seq<string>)
    ensures k in h && h[k] == [v] + more ==> Get(h, k) == v
    ensures k !in h ==> Get(h, k) == ""
  {
  }

  function FirstNotEmpty(h: Header, keys: seq<HeaderKey>): string {
    if keys == [] then ""
    else if Get(h, keys[0]) != "" then Get(h, keys[0])
    else FirstNotEmpty(h, keys[1..])
  }

  datatype Partner = Partner(priv: string, role: string, businessId: string, group: string)

  datatype AdditionalData = AdditionalData(vertical: string, sharedLevel: string, partner: Partner)

  /** What the member service says about the caller. */
  datatype Session = Session(
    username: string, businessId: string, accountId: int, deviceId: string, verifiedPhoneNumber: bool,
    loginMedia: string, loyaltyKey: string, priv: string, role: string, group: string, token: string,
    additionalData: seq<AdditionalData>)

  /** `cookies` is the parsed Cookie header, meaningful while that header is present; `remoteHost`
      is the host part of the remote address, if it can be split; `session` is the context value. */
  datatype Request = Request(
    meth: string, header: Header, cookies: map<string, string>, query: map<string, string>,
    remoteHost: Option<string>, session: Option<Session>)

  function CookieValue(r: Request, name: string): Option<string> {
    if Cookie in r.header && name in r.cookies then Some(r.cookies[name]) else None
  }

  /** The value of a cookie, or the empty string. */
  function FindCookie(r: Request, name: string): string {
    match CookieValue(r, name)
    case Some(v) => v
    case None => ""
  }

  function QueryGet(r: Request, name: string): string {
    if name in r.query then r.query[name] else ""
  }

  lemma QueryIs(r: Request, name: string, v: string)
    ensures name in r.query && r.query[name] == v ==> QueryGet(r, name) == v
    ensures name !in r.query ==> QueryGet(r, name) == ""
  {
  }

  datatype Response = Response(status: int, header: Header, body: string)
}
