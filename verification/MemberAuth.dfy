/** The member-auth middleware: finding a token, overriding the session, checking privileges. */
module MemberAuth {
  import opened Wrappers
  import opened Http
  import opened Text
  import opened Base64Url

  datatype CookieType = B2C | B2B | Admin

  // ----- Bearer tokens -----

  const BEARER := "Bearer "

  datatype BearerResult =
    | Bearer(token: string, payload: seq<Byte>, cookieType: CookieType)
    | NoBearer
    | InvalidJwt
    | UndecodablePayload
    | UnparsablePayload(payload: seq<Byte>)

  /** 1 is an admin session and 2 a business one; everything else counts as a consumer session. */
  function CookieTypeOf(stt: int): CookieType {
    if stt == 1 then Admin else if stt == 2 then B2B else B2C
  }

  /** The header value that is parsed: Authorization if it is a bearer token, else accessToken
      with the prefix added. */
  function BearerHeader(h: Header): Option<string> {
    var bearer := Get(h, Authorization);
    if bearer == "" || !HasPrefix(bearer, BEARER) then
      var access := Get(h, AccessToken);
      if access == "" then None else Some(BEARER + access)
    else Some(bearer)
  }

  /** `parseStt` stands for the JSON decoder: the stt field of a payload, 0 if it has none, or
      None if the payload is not JSON of this shape. */
  function GetBearerToken(h: Header, parseStt: seq<Byte> -> Option<int>): BearerResult {
    match BearerHeader(h)
    case None => NoBearer
    case Some(bearer) =>
      var parts := Split(TrimSpace(TrimPrefix(bearer, BEARER)), '.');
      if |parts| != 3 then InvalidJwt
      else match Decode(parts[1])
        case None => UndecodablePayload
        case Some(payload) =>
          match parseStt(payload)
          case None => UnparsablePayload(payload)
          case Some(stt) => Bearer(bearer, payload, CookieTypeOf(stt))
  }

  /** The compact form of section 7.1 of RFC 7515. */
  function Compact(header: seq<Byte>, payload: seq<Byte>, signature: string): string {
    Encode(header) + ['.'] + Encode(payload) + ['.'] + signature
  }

  lemma DigitIsNeither(c: char)
    requires IsDigit(c)
    ensures c != '.' && !IsSpace(c)
  {
  }

  lemma TrimSpaceKeeps(s: string)
    requires forall c <- s :: !IsSpace(c)
    ensures TrimSpace(s) == s
  {
  }

  lemma CompactParts(header: seq<Byte>, payload: seq<Byte>, signature: string)
    requires forall c <- signature :: c != '.' && !IsSpace(c)
    ensures Split(Compact(header, payload, signature), '.') == [Encode(header), Encode(payload), signature]
    ensures TrimSpace(Compact(header, payload, signature)) == Compact(header, payload, signature)
  {
    EncodeIsDigits(header);
    EncodeIsDigits(payload);
    forall c | IsDigit(c) ensures c != '.' && !IsSpace(c) { DigitIsNeither(c); }
    var h, p := Encode(header), Encode(payload);
    SplitWithoutSeparator(h, '.');
    SplitWithoutSeparator(p, '.');
    SplitWithoutSeparator(signature, '.');
    SplitAtSeparator(h + ['.'] + p, '.', signature);
    SplitAtSeparator(h, '.', p);
    TrimSpaceKeeps(Compact(header, payload, signature));
  }

  /** A token in compact form is read back exactly: the payload bytes, and the cookie type its
      stt stands for, whether it comes as a bearer token or, bare, as an access token. */
  lemma TokenRoundTrip(h: Header, header: seq<Byte>, payload: seq<Byte>, signature: string, parseStt: seq<Byte> -> Option<int>)
    requires forall c <- signature :: c != '.' && !IsSpace(c)
    requires var token := Compact(header, payload, signature);
             || Get(h, Authorization) == BEARER + token
             || (!HasPrefix(Get(h, Authorization), BEARER) && Get(h, AccessToken) == token)
    ensures GetBearerToken(h, parseStt) ==
            match parseStt(payload)
            case Some(stt) => Bearer(BEARER + Compact(header, payload, signature), payload, CookieTypeOf(stt))
            case None => UnparsablePayload(payload)
  {
    var token := Compact(header, payload, signature);
    CompactParts(header, payload, signature);
    DecodeOfEncode(payload);
    assert '.' in token;
    assert (BEARER + token)[..|BEARER|] == BEARER && (BEARER + token)[|BEARER|..] == token;
  }

  /** The token that the headers carry: the rest of a bearer Authorization header, or else a
      non-empty accessToken header. */
  ghost predicate Carries(h: Header, token: string) {
    var auth := Get(h, Authorization);
    || auth == "Bearer " + token
    || ((forall t :: auth != "Bearer " + t) && token != "" && Get(h, AccessToken) == token)
  }

  /** token, trimmed, has exactly three parts between dots, and the middle one decodes to payload. */
  ghost predicate IsJwt(token: string, payload: seq<Byte>) {
    exists a, p, c :: '.' !in a && '.' !in p && '.' !in c && TrimSpace(token) == a + "." + p + "." + c && Decode(p) == Some(payload)
  }

  lemma PrefixMeans(s: string, prefix: string)
    ensures HasPrefix(s, prefix) <==> exists t :: s == prefix + t
    ensures HasPrefix(s, prefix) ==> s == prefix + s[|prefix|..]
  {
    if HasPrefix(s, prefix) {
      assert s == prefix + s[|prefix|..];
    }
    if t :| s == prefix + t {
      assert s[..|prefix|] == prefix;
    }
  }

  lemma BearerHeaderCarries(h: Header, bearer: string)
    ensures BearerHeader(h) == Some(bearer) <==> exists token :: Carries(h, token) && bearer == "Bearer " + token
  {
    var auth := Get(h, Authorization);
    PrefixMeans(auth, BEARER);
    if BearerHeader(h) == Some(bearer) {
      assert Carries(h, bearer[|BEARER|..]) && bearer == BEARER + bearer[|BEARER|..];
    }
    if token :| Carries(h, token) && bearer == "Bearer " + token {
      assert HasPrefix(auth, BEARER) ==> auth == bearer;
    }
  }

  lemma ThreeParts(s: string, a: string, p: string, c: string)
    requires '.' !in a && '.' !in p && '.' !in c
    ensures Split(s, '.') == [a, p, c] <==> s == a + "." + p + "." + c
  {
    SplitWithoutSeparator(a, '.');
    SplitWithoutSeparator(p, '.');
    SplitWithoutSeparator(c, '.');
    var t := a + ['.'] + p + ['.'] + c;
    SplitAtSeparator(a + ['.'] + p, '.', c);
    SplitAtSeparator(a, '.', p);
    assert Split(t, '.') == [a, p, c];
    JoinOfSplit(s, '.');
    JoinOfSplit(t, '.');
  }

  /** A bearer token is found exactly if the headers carry a token of this form whose payload can be
      read, and it is that token with the type its stt stands for. */
  lemma BearerIff(h: Header, parseStt: seq<Byte> -> Option<int>, bearer: string, payload: seq<Byte>, cookieType: CookieType)
    ensures GetBearerToken(h, parseStt) == Bearer(bearer, payload, cookieType) <==>
            && (exists token :: Carries(h, token) && bearer == "Bearer " + token && IsJwt(token, payload))
            && parseStt(payload).Some? && cookieType == CookieTypeOf(parseStt(payload).value)
  {
    BearerHeaderCarries(h, bearer);
    if BearerHeader(h) == Some(bearer) {
      var token :| Carries(h, token) && bearer == "Bearer " + token;
      assert TrimPrefix(bearer, BEARER) == token;
      JwtMeans(token, payload);
      assert forall t :: bearer == "Bearer " + t ==> t == bearer[|BEARER|..];
    }
  }

  lemma JwtMeans(token: string, payload: seq<Byte>)
    ensures IsJwt(token, payload) <==>
            var parts := Split(TrimSpace(token), '.'); |parts| == 3 && Decode(parts[1]) == Some(payload)
  {
    var s := TrimSpace(token);
    var parts := Split(s, '.');
    if a, p, c :| '.' !in a && '.' !in p && '.' !in c && s == a + "." + p + "." + c && Decode(p) == Some(payload) {
      ThreeParts(s, a, p, c);
    }
    if |parts| == 3 && Decode(parts[1]) == Some(payload) {
      SplitPartsAreFree(s, '.');
      ThreeParts(s, parts[0], parts[1], parts[2]);
      assert parts == [parts[0], parts[1], parts[2]];
    }
  }

  /** An stt of 1 stands for an admin session and one of 2 for a business session; the parameter the
      member service is asked with is the same number. */
  function SttParam(t: CookieType): int {
    match t
    case B2C => 0
    case Admin => 1
    case B2B => 2
  }

  lemma SttRoundTrip(t: CookieType, stt: int)
    ensures CookieTypeOf(SttParam(t)) == t
    ensures CookieTypeOf(stt) == Admin <==> stt == 1
    ensures CookieTypeOf(stt) == B2B <==> stt == 2
  {
  }

  // ----- The session -----

  /** What came of asking the member service. `NoReply` covers every failure to get a body. */
  datatype Exchange =
    | NoReply
    | Reply(status: int, body: string)

  datatype Fetch = Fetched(session: Session) | Unauthorized | Failed

  /** `parse` stands for the JSON decoder: the code and the data of a response body. */
  function FetchOf(e: Exchange, parse: string -> Option<(string, Session)>): Fetch {
    match e
    case NoReply => Failed
    case Reply(status, body) =>
      if status != 200 || body == "" then Unauthorized
      else match parse(body)
        case None => Failed
        case Some(p) => if p.0 != "SUCCESS" then Unauthorized else Fetched(p.1)
  }

  datatype Field = Priv | Role | Business | Group

  function PartnerField(p: Partner, f: Field): string {
    match f
    case Priv => p.priv
    case Role => p.role
    case Business => p.businessId
    case Group => p.group
  }

  function SessionField(s: Session, f: Field): string {
    match f
    case Priv => s.priv
    case Role => s.role
    case Business => s.businessId
    case Group => s.group
  }

  predicate Applies(a: AdditionalData) {
    a.vertical == "TTD" && a.sharedLevel == "SESSION"
  }

  /** Entry i is the last one that applies and has a value for the field. */
  ghost predicate LastSet(ads: seq<AdditionalData>, f: Field, i: nat) {
    && i < |ads| && Applies(ads[i]) && PartnerField(ads[i].partner, f) != ""
    && forall j :: i < j < |ads| && Applies(ads[j]) ==> PartnerField(ads[j].partner, f) == ""
  }

  /** The value of a field is that of the last entry that sets it, or the original one. */
  ghost predicate Overridden(ads: seq<AdditionalData>, f: Field, original: string, value: string) {
    && (forall i: nat :: LastSet(ads, f, i) ==> value == PartnerField(ads[i].partner, f))
    && ((forall i: nat :: !LastSet(ads, f, i)) ==> value == original)
  }

  lemma LastSetUnique(ads: seq<AdditionalData>, f: Field, i: nat, j: nat)
    requires LastSet(ads, f, i) && LastSet(ads, f, j)
    ensures i == j
  {
  }

  lemma LastSetKept(ads: seq<AdditionalData>, i: nat, f: Field, j: nat)
    requires i < |ads| && (Applies(ads[i]) ==> PartnerField(ads[i].partner, f) == "")
    ensures LastSet(ads[..i], f, j) <==> LastSet(ads[..i + 1], f, j)
  {
    var xs, ys := ads[..i], ads[..i + 1];
    assert ys == xs + [ads[i]];
  }

  lemma OverrideStep(ads: seq<AdditionalData>, i: nat, f: Field, original: string, value: string)
    requires i < |ads| && Overridden(ads[..i], f, original, value)
    ensures var own := PartnerField(ads[i].partner, f);
            Overridden(ads[..i + 1], f, original, if Applies(ads[i]) && own != "" then own else value)
  {
    var ys := ads[..i + 1];
    if Applies(ads[i]) && PartnerField(ads[i].partner, f) != "" {
      assert LastSet(ys, f, i);
      forall j: nat | LastSet(ys, f, j) ensures j == i {
        LastSetUnique(ys, f, i, j);
      }
    } else {
      forall j: nat ensures LastSet(ads[..i], f, j) <==> LastSet(ys, f, j) {
        LastSetKept(ads, i, f, j);
      }
      forall j: nat | LastSet(ys, f, j) ensures value == PartnerField(ys[j].partner, f) {
        assert LastSet(ads[..i], f, j);
      }
    }
  }

  /** At most one entry is the last one set, so `Overridden` determines the value. */
  lemma OverrideIsUnique(ads: seq<AdditionalData>, f: Field, original: string, v: string, w: string)
    requires Overridden(ads, f, original, v) && Overridden(ads, f, original, w)
    ensures v == w
  {
    if i: nat :| LastSet(ads, f, i) {
    }
  }

  class SessionResponse {
    var data: Session

    constructor (s: Session)
      ensures data == s
    {
      data := s;
    }

    /** Overwrites each field for which the partner has a value. */
    method ApplyPartner(partner: Partner)
      modifies this
      ensures forall f: Field :: SessionField(data, f) ==
                if PartnerField(partner, f) != "" then PartnerField(partner, f) else SessionField(old(data), f)
      ensures data == old(data).(priv := data.priv, role := data.role, businessId := data.businessId, group := data.group)
    {
      if partner.priv != "" {
        data := data.(priv := partner.priv);
      }
      if partner.role != "" {
        data := data.(role := partner.role);
      }
      if partner.businessId != "" {
        data := data.(businessId := partner.businessId);
      }
      if partner.group != "" {
        data := data.(group := partner.group);
      }
    }

    /** Applies the partner data to the session, entry by entry. */
    method ApplyPartners()
      modifies this
      ensures forall f: Field :: Overridden(old(data).additionalData, f, SessionField(old(data), f), SessionField(data, f))
      ensures data == old(data).(priv := data.priv, role := data.role, businessId := data.businessId, group := data.group)
    {
      var ads := data.additionalData;
      for i := 0 to |ads|
        invariant forall f: Field :: Overridden(ads[..i], f, SessionField(old(data), f), SessionField(data, f))
        invariant data == old(data).(priv := data.priv, role := data.role, businessId := data.businessId, group := data.group)
      {
        ghost var before := data;
        if ads[i].vertical == "TTD" && ads[i].sharedLevel == "SESSION" {
          ApplyPartner(ads[i].partner);
        }
        forall f: Field ensures Overridden(ads[..i + 1], f, SessionField(old(data), f), SessionField(data, f)) {
          OverrideStep(ads, i, f, SessionField(old(data), f), SessionField(before, f));
        }
      }
      assert ads[..|ads|] == ads;
    }
  }

  // ----- The handler -----

  datatype AuthConfig = AuthConfig(cookieType: CookieType, privilegeIds: Option<set<string>>)

  datatype Decision = Forward(session: Session) | Refuse(status: int)

  function CookieName(t: CookieType): string {
    match t
    case B2C => "session_access_token"
    case B2B => "aat"
    case Admin => "aat"
  }

  /** The token and cookie type the member service is asked with, if there is a token at all. */
  function TokenOf(cfg: AuthConfig, r: Request, parseStt: seq<Byte> -> Option<int>): Option<(string, CookieType)> {
    match GetBearerToken(r.header, parseStt)
    case Bearer(token, _, cookieType) => Some((token, cookieType))
    case _ =>
      match CookieValue(r, CookieName(cfg.cookieType))
      case Some(v) => Some((BEARER + v, cfg.cookieType))
      case None => None
  }

  lemma TokenWithBearer(cfg: AuthConfig, r: Request, parseStt: seq<Byte> -> Option<int>, token: string, payload: seq<Byte>, t: CookieType)
    requires GetBearerToken(r.header, parseStt) == Bearer(token, payload, t)
    ensures TokenOf(cfg, r, parseStt) == Some((token, t))
  {
  }

  /** Without a bearer token in the headers, the token is that of the cookie: session_access_token
      for consumers, aat for the others. There is none exactly if that is missing, too. */
  lemma TokenWithoutBearer(cfg: AuthConfig, r: Request, parseStt: seq<Byte> -> Option<int>)
    requires !GetBearerToken(r.header, parseStt).Bearer?
    ensures var name := if cfg.cookieType == B2C then "session_access_token" else "aat";
            && (forall token, t :: TokenOf(cfg, r, parseStt) == Some((token, t)) <==>
                  Cookie in r.header && name in r.cookies && token == "Bearer " + r.cookies[name] && t == cfg.cookieType)
            && (TokenOf(cfg, r, parseStt) == None <==> !(Cookie in r.header && name in r.cookies))
  {
  }

  /** The partner data counts only for event partners. */
  predicate IsEventPartner(r: Request) {
    EqualFold(Get(r.header, BusinessType), "event_partner")
  }

  /** s' is s with each field that partner data can set overridden as it should be. */
  ghost predicate Adjusted(r: Request, s: Session, s': Session) {
    && s' == s.(priv := s'.priv, role := s'.role, businessId := s'.businessId, group := s'.group)
    && (if IsEventPartner(r)
        then forall f: Field :: Overridden(s.additionalData, f, SessionField(s, f), SessionField(s', f))
        else s' == s)
  }

  ghost predicate HasPrivilege(cfg: AuthConfig, s: Session) {
    cfg.privilegeIds.Some? ==> exists id :: id in Split(s.priv, ',') && id in cfg.privilegeIds.value
  }

  /** Privileges are a comma-separated list. */
  lemma PrivilegesAreCommaSeparated(cfg: AuthConfig, s: Session, a: string, rest: string)
    requires cfg.privilegeIds.Some? && ',' !in a
    ensures s.priv == a ==> (HasPrivilege(cfg, s) <==> a in cfg.privilegeIds.value)
    ensures s.priv == a + "," + rest ==>
              (HasPrivilege(cfg, s) <==> a in cfg.privilegeIds.value || HasPrivilege(cfg, s.(priv := rest)))
  {
    SplitWithoutSeparator(a, ',');
    SplitAtSeparator(a, ',', rest);
    assert a + [','] + rest == a + "," + rest;
    assert [a] + Split(rest, ',') == Split(a + "," + rest, ',');
    assert a in [a] + Split(rest, ',');
    assert forall id :: id in [a] + Split(rest, ',') <==> id == a || id in Split(rest, ',');
  }

  method HoldsAny(ids: seq<string>, required: set<string>) returns (found: bool)
    ensures found <==> exists id :: id in ids && id in required
  {
    for i := 0 to |ids|
      invariant forall id <- ids[..i] :: id !in required
    {
      if ids[i] in required {
        return true;
      }
    }
    return false;
  }

  /** The exchange gives the session s: status 200, and a body with the code SUCCESS. */
  ghost predicate Gives(e: Exchange, parse: string -> Option<(string, Session)>, s: Session) {
    exists body :: body != "" && e == Reply(200, body) && parse(body) == Some(("SUCCESS", s))
  }

  /** The exchange breaks down: no reply, or one with status 200 whose body cannot be read. */
  ghost predicate Breaks(e: Exchange, parse: string -> Option<(string, Session)>) {
    e == NoReply || exists body :: body != "" && e == Reply(200, body) && parse(body) == None
  }

  lemma FetchIs(e: Exchange, parse: string -> Option<(string, Session)>)
    ensures FetchOf(e, parse) == Failed <==> Breaks(e, parse)
    ensures forall s :: FetchOf(e, parse) == Fetched(s) <==> Gives(e, parse, s)
  {
  }

  /** The session that the handler forwards for s: overridden and with the token. */
  ghost predicate Forwards(cfg: AuthConfig, r: Request, s: Session, token: string, forwarded: Session) {
    exists s' :: Adjusted(r, s, s') && HasPrivilege(cfg, s') && forwarded == s'.(token := token)
  }

  /** What the handler is to decide. It forwards exactly what `Forwards` says, for a token with which
      the member service gives a session; it answers 500 exactly if there is a token and the exchange
      breaks down, and 401 in all other cases. */
  ghost predicate Decides(cfg: AuthConfig, r: Request, parseStt: seq<Byte> -> Option<int>,
                          ask: (string, CookieType) -> Exchange, parse: string -> Option<(string, Session)>, d: Decision) {
    var t := TokenOf(cfg, r, parseStt);
    && (forall f :: d == Forward(f) <==>
          t.Some? && exists s :: Gives(ask(t.value.0, t.value.1), parse, s) && Forwards(cfg, r, s, t.value.0, f))
    && (d == Refuse(500) <==> t.Some? && Breaks(ask(t.value.0, t.value.1), parse))
    && (d.Refuse? ==> d.status == 401 || d.status == 500)
  }

  lemma SessionIsForwarded(cfg: AuthConfig, r: Request, s: Session, s': Session, token: string, f: Session)
    requires Adjusted(r, s, s') && HasPrivilege(cfg, s')
    ensures Forwards(cfg, r, s, token, f) <==> f == s'.(token := token)
  {
    if Forwards(cfg, r, s, token, f) {
      var s2 :| Adjusted(r, s, s2) && HasPrivilege(cfg, s2) && f == s2.(token := token);
      AdjustedIsUnique(r, s, s', s2);
    }
  }

  lemma SessionIsRefused(cfg: AuthConfig, r: Request, s: Session, s': Session, token: string, f: Session)
    requires Adjusted(r, s, s') && !HasPrivilege(cfg, s')
    ensures !Forwards(cfg, r, s, token, f)
  {
    if Forwards(cfg, r, s, token, f) {
      var s2 :| Adjusted(r, s, s2) && HasPrivilege(cfg, s2) && f == s2.(token := token);
      AdjustedIsUnique(r, s, s', s2);
    }
  }

  /** The decision is determined by the request, the configuration and the member service. */
  lemma DecisionIsUnique(cfg: AuthConfig, r: Request, parseStt: seq<Byte> -> Option<int>,
                         ask: (string, CookieType) -> Exchange, parse: string -> Option<(string, Session)>, d: Decision, d': Decision)
    requires Decides(cfg, r, parseStt, ask, parse, d) && Decides(cfg, r, parseStt, ask, parse, d')
    ensures d == d'
  {
    if d.Forward? {
      assert d' == Forward(d.session);
    } else if d'.Forward? {
      assert d == Forward(d'.session);
    }
  }

  /** The decision once a token has been found and the exchange is over. */
  ghost predicate DecidesWith(cfg: AuthConfig, r: Request, token: string, e: Exchange,
                              parse: string -> Option<(string, Session)>, d: Decision) {
    match FetchOf(e, parse)
    case Failed => d == Refuse(500)
    case Unauthorized => d == Refuse(401)
    case Fetched(s) => exists s' :: Adjusted(r, s, s') && d == if HasPrivilege(cfg, s') then Forward(s'.(token := token)) else Refuse(401)
  }

  lemma DecidesWithDecides(cfg: AuthConfig, r: Request, parseStt: seq<Byte> -> Option<int>,
                           ask: (string, CookieType) -> Exchange, parse: string -> Option<(string, Session)>, d: Decision)
    requires var t := TokenOf(cfg, r, parseStt);
             if t.None? then d == Refuse(401) else DecidesWith(cfg, r, t.value.0, ask(t.value.0, t.value.1), parse, d)
    ensures Decides(cfg, r, parseStt, ask, parse, d)
  {
    var t := TokenOf(cfg, r, parseStt);
    if t.Some? {
      var e, token := ask(t.value.0, t.value.1), t.value.0;
      FetchIs(e, parse);
      forall f ensures d == Forward(f) <==> exists s :: Gives(e, parse, s) && Forwards(cfg, r, s, token, f) {
        match FetchOf(e, parse)
        case Fetched(s) =>
          var s' :| Adjusted(r, s, s') && d == if HasPrivilege(cfg, s') then Forward(s'.(token := token)) else Refuse(401);
          assert Gives(e, parse, s);
          assert forall x :: Gives(e, parse, x) ==> FetchOf(e, parse) == Fetched(x);
          if HasPrivilege(cfg, s') {
            SessionIsForwarded(cfg, r, s, s', token, f);
          } else {
            SessionIsRefused(cfg, r, s, s', token, f);
          }
        case _ =>
          assert forall x :: Gives(e, parse, x) ==> FetchOf(e, parse) == Fetched(x);
      }
    }
  }

  /** One request: calls the next handler with a session, or writes exactly one error status.
      `ask` is the exchange with the member service for a token and a cookie type. */
  method Handle(cfg: AuthConfig, r: Request, parseStt: seq<Byte> -> Option<int>,
                ask: (string, CookieType) -> Exchange, parse: string -> Option<(string, Session)>)
    returns (d: Decision)
    ensures Decides(cfg, r, parseStt, ask, parse, d)
  {
    var t := FindToken(cfg, r, parseStt);
    if t.None? {
      d := Refuse(401);
    } else {
      d := Respond(cfg, r, t.value.0, ask(t.value.0, t.value.1), parse);
    }
    DecidesWithDecides(cfg, r, parseStt, ask, parse, d);
  }

  /** The part of the handler that looks for a token. */
  method FindToken(cfg: AuthConfig, r: Request, parseStt: seq<Byte> -> Option<int>) returns (t: Option<(string, CookieType)>)
    ensures t == TokenOf(cfg, r, parseStt)
  {
    match GetBearerToken(r.header, parseStt) {
      case Bearer(bearer, _, cType) =>
        return Some((bearer, cType));
      case _ =>
        var cookie := CookieValue(r, CookieName(cfg.cookieType));
        if cookie.None? {
          return None;
        }
        return Some((BEARER + cookie.value, cfg.cookieType));
    }
  }

  /** The part of the handler after the exchange with the member service. */
  method Respond(cfg: AuthConfig, r: Request, token: string, e: Exchange, parse: string -> Option<(string, Session)>) returns (d: Decision)
    ensures DecidesWith(cfg, r, token, e, parse, d)
  {
    match FetchOf(e, parse) {
      case Unauthorized =>
        return Refuse(401);
      case Failed =>
        return Refuse(500);
      case Fetched(s) =>
        d := Authorize(cfg, r, s, token);
    }
  }

  /** The part of the handler after the session has been fetched. */
  method Authorize(cfg: AuthConfig, r: Request, s: Session, token: string) returns (d: Decision)
    ensures exists s' :: Adjusted(r, s, s') && d == if HasPrivilege(cfg, s') then Forward(s'.(token := token)) else Refuse(401)
  {
    var response := new SessionResponse(s);
    if EqualFold(Get(r.header, BusinessType), "event_partner") {
      response.ApplyPartners();
    }
    var s' := response.data;
    assert Adjusted(r, s, s');
    if cfg.privilegeIds.Some? {
      var found := HoldsAny(Split(s'.priv, ','), cfg.privilegeIds.value);
      if !found {
        return Refuse(401);
      }
    }
    return Forward(s'.(token := token));
  }

  lemma AdjustedIsUnique(r: Request, s: Session, s1: Session, s2: Session)
    requires Adjusted(r, s, s1) && Adjusted(r, s, s2)
    ensures s1 == s2
  {
    if IsEventPartner(r) {
      forall f: Field ensures SessionField(s1, f) == SessionField(s2, f) {
        OverrideIsUnique(s.additionalData, f, SessionField(s, f), SessionField(s1, f), SessionField(s2, f));
      }
      assert SessionField(s1, Priv) == SessionField(s2, Priv) && SessionField(s1, Role) == SessionField(s2, Role);
      assert SessionField(s1, Business) == SessionField(s2, Business) && SessionField(s1, Group) == SessionField(s2, Group);
    }
  }
}
