/** Unpadded base64url, sections 3.2 and 5 of RFC 4648, with the leniency of the decoder the
    program uses: line breaks are skipped, and unused low bits of the last digit are ignored. */
module Base64Url {
  import opened Wrappers

  type Byte = b: int | 0 <= b < 256
  type Sextet = v: int | 0 <= v < 64

  function Digit(v: Sextet): (c: char)
    ensures Value(c) == Some(v)
  {
    if v < 26 then 'A' + v as char
    else if v < 52 then 'a' + (v - 26) as char
    else if v < 62 then '0' + (v - 52) as char
    else if v == 62 then '-'
    else '_'
  }

  function Value(c: char): Option<Sextet> {
    if 'A' <= c <= 'Z' then Some((c - 'A') as Sextet)
    else if 'a' <= c <= 'z' then Some((c - 'a') as int + 26)
    else if '0' <= c <= '9' then Some((c - '0') as int + 52)
    else if c == '-' then Some(62)
    else if c == '_' then Some(63)
    else None
  }

  predicate IsDigit(c: char) {
    Value(c).Some?
  }

  /** Three bytes become four sextets; one or two left over become two or three. */
  function Pack(bs: seq<Byte>): seq<Sextet> {
    if |bs| == 0 then []
    else if |bs| == 1 then [bs[0] / 4, bs[0] % 4 * 16]
    else if |bs| == 2 then [bs[0] / 4, bs[0] % 4 * 16 + bs[1] / 16, bs[1] % 16 * 4]
    else Pack3(bs[0], bs[1], bs[2]) + Pack(bs[3..])
  }

  function Pack3(a: Byte, b: Byte, c: Byte): (vs: seq<Sextet>)
    ensures |vs| == 4
  {
    [a / 4, a % 4 * 16 + b / 16, b % 16 * 4 + c / 64, c % 64]
  }

  function Unpack(vs: seq<Sextet>): Option<seq<Byte>> {
    if |vs| == 0 then Some([])
    else if |vs| == 1 then None
    else if |vs| == 2 then Some(Unpack4(vs[0], vs[1], 0, 0)[..1])
    else if |vs| == 3 then Some(Unpack4(vs[0], vs[1], vs[2], 0)[..2])
    else match Unpack(vs[4..])
      case Some(rest) => Some(Unpack4(vs[0], vs[1], vs[2], vs[3]) + rest)
      case None => None
  }

  function Unpack4(p: Sextet, q: Sextet, r: Sextet, s: Sextet): (bs: seq<Byte>)
    ensures |bs| == 3
  {
    [p * 4 + q / 16, q % 16 * 16 + r / 4, r % 4 * 64 + s]
  }

  function Digits(vs: seq<Sextet>): (s: string)
    ensures |s| == |vs| && forall i :: 0 <= i < |s| ==> s[i] == Digit(vs[i])
  {
    seq(|vs|, i requires 0 <= i < |vs| => Digit(vs[i]))
  }

  function Values(s: string): Option<seq<Sextet>> {
    if s == "" then Some([])
    else match (Value(s[0]), Values(s[1..]))
      case (Some(v), Some(vs)) => Some([v] + vs)
      case _ => None
  }

  function Strip(s: string): string {
    if s == "" then ""
    else if s[0] == '\r' || s[0] == '\n' then Strip(s[1..])
    else [s[0]] + Strip(s[1..])
  }

  function Encode(bs: seq<Byte>): string {
    Digits(Pack(bs))
  }

  function Decode(s: string): Option<seq<Byte>> {
    match Values(Strip(s))
    case Some(vs) => Unpack(vs)
    case None => None
  }

  lemma EncodeIsDigits(bs: seq<Byte>)
    ensures forall c <- Encode(bs) :: IsDigit(c)
  {
  }

  lemma UnpackOfPack3(a: Byte, b: Byte, c: Byte)
    ensures var vs := Pack3(a, b, c); Unpack4(vs[0], vs[1], vs[2], vs[3]) == [a, b, c]
  {
  }

  lemma {:induction false} UnpackOfPack(bs: seq<Byte>)
    ensures Unpack(Pack(bs)) == Some(bs)
  {
    var vs := Pack(bs);
    if |bs| >= 3 {
      UnpackOfPack(bs[3..]);
      UnpackOfPack3(bs[0], bs[1], bs[2]);
      var head := Pack3(bs[0], bs[1], bs[2]);
      assert vs == head + Pack(bs[3..]) && vs[4..] == Pack(bs[3..]);
      assert vs[0] == head[0] && vs[1] == head[1] && vs[2] == head[2] && vs[3] == head[3];
      assert [bs[0], bs[1], bs[2]] + bs[3..] == bs;
    } else if |bs| == 2 {
      UnpackOfPack3(bs[0], bs[1], 0);
      assert Unpack4(vs[0], vs[1], vs[2], 0)[..2] == bs;
    } else if |bs| == 1 {
      UnpackOfPack3(bs[0], 0, 0);
      assert Unpack4(vs[0], vs[1], 0, 0)[..1] == bs;
    }
  }

  lemma {:induction false} ValuesOfDigits(vs: seq<Sextet>)
    ensures Values(Digits(vs)) == Some(vs)
  {
    if vs != [] {
      ValuesOfDigits(vs[1..]);
      assert Digits(vs)[1..] == Digits(vs[1..]);
      assert [vs[0]] + vs[1..] == vs;
    }
  }

  lemma {:induction false} StripKeeps(s: string)
    requires forall c <- s :: c != '\r' && c != '\n'
    ensures Strip(s) == s
  {
    if s != "" {
      assert s[0] in s && forall c <- s[1..] :: c in s;
      StripKeeps(s[1..]);
      assert [s[0]] + s[1..] == s;
    }
  }

  /** Decoding undoes encoding, for all bytes. */
  lemma DecodeOfEncode(bs: seq<Byte>)
    ensures Decode(Encode(bs)) == Some(bs)
  {
    EncodeIsDigits(bs);
    assert !IsDigit('\r') && !IsDigit('\n');
    StripKeeps(Encode(bs));
    ValuesOfDigits(Pack(bs));
    UnpackOfPack(bs);
  }

  // ----- What the encoding is -----

  const UPPER := "ABCDEFGHIJKLMNOPQRSTUVWXYZ"
  const LOWER := "abcdefghijklmnopqrstuvwxyz"
  const REST := "0123456789-_"
  const ALPHABET := UPPER + LOWER + REST

  /** Table 2 in section 5 of RFC 4648. */
  lemma DigitIsInAlphabet(v: Sextet)
    ensures |ALPHABET| == 64 && Digit(v) == ALPHABET[v]
  {
    if v < 26 {
      assert ALPHABET[v] == UPPER[v];
    } else if v < 52 {
      assert ALPHABET[v] == LOWER[v - 26];
    } else {
      assert ALPHABET[v] == REST[v - 52];
    }
  }

  /** Four digits, and three bytes, as a number of 24 bits. */
  function OfDigits(p: int, q: int, r: int, s: int): int {
    ((p * 64 + q) * 64 + r) * 64 + s
  }

  function OfBytes(a: int, b: int, c: int): int {
    (a * 256 + b) * 256 + c
  }

  /** What is missing at the end counts as zero. */
  function At(xs: seq<int>, i: nat): int {
    if i < |xs| then xs[i] else 0
  }

  /** The number of the i-th group of digits or bytes. */
  function DigitGroup(vs: seq<int>, i: nat): int {
    OfDigits(At(vs, 4 * i), At(vs, 4 * i + 1), At(vs, 4 * i + 2), At(vs, 4 * i + 3))
  }

  function ByteGroup(bs: seq<int>, i: nat): int {
    OfBytes(At(bs, 3 * i), At(bs, 3 * i + 1), At(bs, 3 * i + 2))
  }

  lemma AtShifted(xs: seq<int>, k: nat, j: nat)
    requires k <= |xs|
    ensures At(xs, j + k) == At(xs[k..], j)
  {
  }

  lemma GroupShifted(vs: seq<int>, bs: seq<int>, i: nat)
    requires |vs| >= 4 && |bs| >= 3
    ensures DigitGroup(vs, i + 1) == DigitGroup(vs[4..], i) && ByteGroup(bs, i + 1) == ByteGroup(bs[3..], i)
  {
    AtShifted(vs, 4, 4 * i);
    AtShifted(vs, 4, 4 * i + 1);
    AtShifted(vs, 4, 4 * i + 2);
    AtShifted(vs, 4, 4 * i + 3);
    AtShifted(bs, 3, 3 * i);
    AtShifted(bs, 3, 3 * i + 1);
    AtShifted(bs, 3, 3 * i + 2);
  }

  lemma Pack3IsNumber(a: Byte, b: Byte, c: Byte)
    ensures var vs := Pack3(a, b, c); OfDigits(vs[0], vs[1], vs[2], vs[3]) == OfBytes(a, b, c)
  {
  }

  lemma {:induction false} EncodedLength(bs: seq<Byte>)
    ensures |Encode(bs)| == |Pack(bs)| == (4 * |bs| + 2) / 3
  {
    if |bs| >= 3 {
      EncodedLength(bs[3..]);
    }
  }

  lemma FirstEncoded(bs: seq<Byte>)
    ensures DigitGroup(Pack(bs), 0) == ByteGroup(bs, 0)
  {
    if |bs| >= 3 {
      Pack3IsNumber(bs[0], bs[1], bs[2]);
    } else if |bs| == 2 {
      Pack3IsNumber(bs[0], bs[1], 0);
    } else if |bs| == 1 {
      Pack3IsNumber(bs[0], 0, 0);
    }
  }

  /** Each three bytes and their four digits are the same number, the first being the highest; at the
      end, where bytes are missing, so are the digits that would be zero. */
  lemma {:induction false} EncodesNumbers(bs: seq<Byte>, i: nat)
    requires 3 * i < |bs|
    ensures |Encode(bs)| == (4 * |bs| + 2) / 3
    ensures DigitGroup(Pack(bs), i) == ByteGroup(bs, i)
  {
    EncodedLength(bs);
    if i == 0 {
      FirstEncoded(bs);
    } else {
      EncodesNumbers(bs[3..], i - 1);
      LaterEncoded(bs, i - 1);
    }
  }

  lemma LaterEncoded(bs: seq<Byte>, i: nat)
    requires |bs| >= 3 && DigitGroup(Pack(bs[3..]), i) == ByteGroup(bs[3..], i)
    ensures DigitGroup(Pack(bs), i + 1) == ByteGroup(bs, i + 1)
  {
    var vs, head, rest := Pack(bs), Pack3(bs[0], bs[1], bs[2]), Pack(bs[3..]);
    assert vs == head + rest;
    assert vs[4..] == rest;
    GroupShifted(vs, bs, i);
  }

  lemma Unpack4IsNumber(p: Sextet, q: Sextet, r: Sextet, s: Sextet)
    ensures var bs := Unpack4(p, q, r, s); OfBytes(bs[0], bs[1], bs[2]) == OfDigits(p, q, r, s)
  {
  }

  lemma {:induction false} DecodedLength(vs: seq<Sextet>)
    requires Unpack(vs).Some?
    ensures |Unpack(vs).value| == 3 * |vs| / 4
  {
    if |vs| >= 4 {
      DecodedLength(vs[4..]);
    }
  }

  lemma FirstDecoded(vs: seq<Sextet>)
    requires Unpack(vs).Some? && vs != []
    ensures 0 <= DigitGroup(vs, 0) - ByteGroup(Unpack(vs).value, 0) < if |vs| > 3 then 1 else if |vs| > 2 then 256 else 65536
  {
    if |vs| >= 4 {
      Unpack4IsNumber(vs[0], vs[1], vs[2], vs[3]);
    } else if |vs| == 3 {
      Unpack4IsNumber(vs[0], vs[1], vs[2], 0);
    } else {
      Unpack4IsNumber(vs[0], vs[1], 0, 0);
    }
  }

  /** Four digits are the three bytes of the same number; with two or three digits at the end, the low
      bits that do not fill a byte are dropped. */
  lemma {:induction false} DecodesNumbers(vs: seq<Sextet>, i: nat)
    requires Unpack(vs).Some? && 4 * i < |vs|
    ensures |Unpack(vs).value| == 3 * |vs| / 4
    ensures 0 <= DigitGroup(vs, i) - ByteGroup(Unpack(vs).value, i) < if 4 * i + 3 < |vs| then 1 else if 4 * i + 2 < |vs| then 256 else 65536
  {
    DecodedLength(vs);
    if i == 0 {
      FirstDecoded(vs);
    } else {
      DecodesNumbers(vs[4..], i - 1);
      LaterDecoded(vs, i - 1);
    }
  }

  lemma LaterDecoded(vs: seq<Sextet>, i: nat)
    requires |vs| >= 4 && Unpack(vs).Some?
    ensures Unpack(vs[4..]).Some? && DigitGroup(vs, i + 1) == DigitGroup(vs[4..], i)
    ensures ByteGroup(Unpack(vs).value, i + 1) == ByteGroup(Unpack(vs[4..]).value, i)
  {
    var head, rest := Unpack4(vs[0], vs[1], vs[2], vs[3]), Unpack(vs[4..]).value;
    assert Unpack(vs).value == head + rest;
    assert (head + rest)[3..] == rest;
    GroupShifted(vs, head + rest, i);
  }

  /** Line breaks are skipped, and nothing else. */
  lemma {:induction false} StripIs(s: string, c: char, t: string)
    ensures Strip(s + [c] + t) == Strip(s) + (if c in {'\r', '\n'} then "" else [c]) + Strip(t)
  {
    if s == "" {
      assert (s + [c] + t)[1..] == t;
    } else {
      assert (s + [c] + t)[0] == s[0] && (s + [c] + t)[1..] == s[1..] + [c] + t;
      StripIs(s[1..], c, t);
    }
  }

  // ----- What else the decoder accepts -----

  lemma {:induction false} UnpackAccepts(vs: seq<Sextet>)
    ensures Unpack(vs).Some? <==> |vs| % 4 != 1
  {
    if |vs| >= 4 {
      UnpackAccepts(vs[4..]);
    }
  }

  lemma {:induction false} ValuesAccept(s: string)
    ensures Values(s).Some? <==> forall c <- s :: IsDigit(c)
    ensures Values(s).Some? ==> |Values(s).value| == |s|
  {
    if s != "" {
      ValuesAccept(s[1..]);
      assert s[0] in s && (forall c <- s[1..] :: c in s) && forall c <- s :: c == s[0] || c in s[1..];
    }
  }

  /** The decoder accepts exactly the strings that, line breaks removed, consist of digits and
      do not leave a single digit over. */
  lemma DecodeAccepts(s: string)
    ensures Decode(s).Some? <==> |Strip(s)| % 4 != 1 && forall c <- Strip(s) :: IsDigit(c)
  {
    ValuesAccept(Strip(s));
    if Values(Strip(s)).Some? {
      UnpackAccepts(Values(Strip(s)).value);
    }
  }
}
