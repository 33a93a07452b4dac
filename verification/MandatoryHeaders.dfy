/** The headers every backend request carries. */
module MandatoryHeaders {
  import opened Http
  import opened Text

  datatype Device = Desktop | Mobile | OtherDevice

  /** What the program takes from outside: a fresh UUID, the address of a local interface, and
      the classification of user agents. */
  datatype Env = Env(uuid: string, localIp: string, device: string -> Device)

  // ----- Request ID -----

  const MAX_CLIENT_ID := 13

  function RequestIdOf(h: Header, uuid: string): string {
    var client := FirstNotEmpty(h, [RequestId, OldRequestId]);
    if client != "" && client != "NONE" then
      (if |client| < MAX_CLIENT_ID then client else client[..MAX_CLIENT_ID]) + "." + uuid
    else uuid
  }

  /** A chain of gateways: each hop sees the request ID that the one before has set. */
  ghost predicate Hops(headers: seq<Header>, uuids: seq<string>) {
    && |headers| == |uuids|
    && (forall i :: 0 <= i < |uuids| ==> |uuids[i]| == 36)
    && forall i :: 0 < i < |headers| ==> Get(headers[i], RequestId) == RequestIdOf(headers[i - 1], uuids[i - 1])
  }

  lemma RequestIdLength(h: Header, uuid: string)
    requires |uuid| == 36
    ensures 36 <= |RequestIdOf(h, uuid)| <= 50
  {
  }

  lemma RequestIdOfLong(h: Header, uuid: string)
    requires |uuid| == 36 && |Get(h, RequestId)| >= 36
    ensures RequestIdOf(h, uuid) == Get(h, RequestId)[..MAX_CLIENT_ID] + "." + uuid
    ensures |RequestIdOf(h, uuid)| == 50
  {
    assert FirstNotEmpty(h, [RequestId, OldRequestId]) == Get(h, RequestId);
  }

  /** For every client value the request ID has at most 50 characters; over any chain of hops it
      has exactly 50 from the second on, and its first 13 never change after the first. */
  lemma {:induction false} RequestIdOverHops(headers: seq<Header>, uuids: seq<string>, i: nat)
    requires Hops(headers, uuids) && i < |headers|
    ensures var id := RequestIdOf(headers[i], uuids[i]);
            && 36 <= |id| <= 50
            && (i > 0 ==> |id| == 50)
            && id[..MAX_CLIENT_ID] == RequestIdOf(headers[0], uuids[0])[..MAX_CLIENT_ID]
  {
    RequestIdLength(headers[i], uuids[i]);
    RequestIdLength(headers[0], uuids[0]);
    if i > 0 {
      RequestIdOverHops(headers, uuids, i - 1);
      RequestIdOfLong(headers[i], uuids[i]);
    }
  }

  // ----- The other getters -----

  function OrElse(s: string, default: string): string {
    if s == "" then default else s
  }

  function StoreIdOf(h: Header): string {
    OrElse(FirstNotEmpty(h, [StoreId, OldStoreId]), "TIKETCOM")
  }

  function LanguageOf(h: Header): string {
    var language := FirstNotEmpty(h, [AcceptLanguage, OldLang, OldLanguage]);
    if language == "" then "ID" else ToUpper(language)
  }

  function CurrencyOf(h: Header): string {
    var currency := FirstNotEmpty(h, [Currency, OldCurrency]);
    if currency == "" then "IDR" else ToUpper(currency)
  }

  function DeviceIdOf(r: Request): string {
    OrElse(FirstNotEmpty(r.header, [DeviceId, OldDeviceId]), FindCookie(r, "deviceId"))
  }

  function IdentityOf(r: Request): string {
    OrElse(DeviceIdOf(r), FindCookie(r, "PHPSESSID"))
  }

  function ResellerIdOf(r: Request): string {
    OrElse(FirstNotEmpty(r.header, [ResellerId, OldResellerId]), FindCookie(r, "twh"))
  }

  function ResellerTypeOf(resellerId: string): string {
    if resellerId != "" then "B2B_AFFILIATE" else ""
  }

  function TagAffIdOf(r: Request): string {
    OrElse(Get(r.header, TagAffId), QueryGet(r, "tag_aff_id"))
  }

  function ChannelIdOf(h: Header, device: string -> Device): string {
    if Get(h, ChannelIdV2) == "WEBVIEW" then
      match Get(h, PlatformV2)
      case "ANDROID" => "ANDROID"
      case "IOS" => "IOS"
      case _ => "WEBVIEW_UNKNOWN"
    else if Get(h, UserAgent) != "" then
      match device(Get(h, UserAgent))
      case Desktop => "DESKTOP"
      case Mobile => "MOBILE"
      case OtherDevice => "UNKNOWN"
    else "UNKNOWN"
  }

  function ContentTypeOf(h: Header): string {
    OrElse(Get(h, ContentType), "application/json; charset=utf-8")
  }

  // ----- Client address -----

  const IP_SOURCES := [TrueClientIp, ForwardedFor, ProxyClientIp, RealIp]

  predicate GoodIp(ip: string) {
    ip != "" && !EqualFold(ip, "UNKNOWN")
  }

  /** The first good value among the sources, or the value of the last source. */
  function PickIp(h: Header, sources: seq<HeaderKey>): string
    requires sources != []
  {
    if GoodIp(Get(h, sources[0])) || |sources| == 1 then Get(h, sources[0]) else PickIp(h, sources[1..])
  }

  /** The part before the first comma, unless the comma comes first. */
  function FirstAddress(ip: string): string {
    var j := IndexOf(ip, ',');
    if 0 < j < |ip| then TrimSpace(ip[..j]) else ip
  }

  /** The address used when no source is good. */
  function RemoteAddress(r: Request, localIp: string): string {
    var last := Get(r.header, RealIp);
    match r.remoteHost
    case None => last
    case Some(host) => FirstAddress(if host == "127.0.0.1" || host == "0:0:0:0:0:0:0:1" then localIp else last)
  }

  function ClientIp(r: Request, localIp: string): string {
    var picked := PickIp(r.header, IP_SOURCES);
    if GoodIp(picked) then FirstAddress(picked) else RemoteAddress(r, localIp)
  }

  method GetClientIp(r: Request, localIp: string) returns (ip: string)
    ensures ip == ClientIp(r, localIp)
  {
    ip := "";
    var i := 0;
    while i < |IP_SOURCES|
      invariant i <= |IP_SOURCES|
      invariant i < |IP_SOURCES| ==> PickIp(r.header, IP_SOURCES) == PickIp(r.header, IP_SOURCES[i..])
      invariant i == |IP_SOURCES| ==> PickIp(r.header, IP_SOURCES) == ip && !GoodIp(ip)
    {
      ip := Get(r.header, IP_SOURCES[i]);
      if GoodIp(ip) {
        break;
      }
      assert i + 1 < |IP_SOURCES| ==> IP_SOURCES[i..][1..] == IP_SOURCES[i + 1..];
      i := i + 1;
    }
    PickIpIsGoodOrLast(r.header, IP_SOURCES);
    assert IP_SOURCES[|IP_SOURCES| - 1] == RealIp;
    if !GoodIp(ip) {
      if r.remoteHost.None? {
        return;
      }
      if r.remoteHost.value == "127.0.0.1" || r.remoteHost.value == "0:0:0:0:0:0:0:1" {
        ip := localIp;
      }
    }
    if ip != "" {
      var j := IndexOf(ip, ',');
      if 0 < j < |ip| {
        ip := TrimSpace(ip[..j]);
      }
    }
  }

  lemma {:induction false} PickIpIsGoodOrLast(h: Header, sources: seq<HeaderKey>)
    requires sources != []
    ensures !GoodIp(PickIp(h, sources)) ==> PickIp(h, sources) == Get(h, sources[|sources| - 1])
    ensures GoodIp(PickIp(h, sources)) <==> exists k <- sources :: GoodIp(Get(h, k))
  {
    if !GoodIp(Get(h, sources[0])) && |sources| > 1 {
      var rest := sources[1..];
      PickIpIsGoodOrLast(h, rest);
      if GoodIp(PickIp(h, rest)) {
        var k :| k in rest && GoodIp(Get(h, k));
        assert k in sources;
      } else {
        forall k | k in sources ensures !GoodIp(Get(h, k)) {
          assert k == sources[0] || k in rest;
        }
      }
    } else {
      assert sources[0] in sources;
    }
  }
}
