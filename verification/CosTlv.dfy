/** COS events: the TLV encoding they are measured in, and the NAME=VALUE texts they carry. */
module CosTlvs {
  import opened Basics
  import opened Hashing

  const COS_EVENT_TYPE: byte := 80
  const COS_EVENT_PCR: nat := 13
  const COS_RTMR: nat := 3
  const COS_CCELMR_INDEX: nat := 4

  // Nested event types, in declaration order.
  const IMAGE_REF: byte := 0
  const IMAGE_DIGEST: byte := 1
  const RESTART_POLICY: byte := 2
  const IMAGE_ID: byte := 3
  const ARG: byte := 4
  const ENV_VAR: byte := 5
  const OVERRIDE_ARG: byte := 6
  const OVERRIDE_ENV: byte := 7
  const LAUNCH_SEPARATOR: byte := 8
  const MEMORY_MONITOR: byte := 9
  const GPU_CC_MODE: byte := 10

  datatype TlvError = TooLong | Truncated | LengthMismatch | NotCosEvent

  /** A record of the TCG Canonical Event Log: one type byte, a four-byte big-endian length, the value. */
  datatype Tlv = Tlv(typ: byte, value: Bytes)

  datatype CosTlv = CosTlv(eventType: byte, content: Bytes)

  const LENGTH_LIMIT: nat := 0x1_0000_0000

  function U32(n: nat): (b: Bytes)
    requires n < LENGTH_LIMIT
    ensures |b| == 4
  {
    [n / 0x100_0000, n / 0x1_0000 % 256, n / 256 % 256, n % 256]
  }

  function FromU32(b: Bytes): nat
    requires |b| == 4
  {
    b[0] as int * 0x100_0000 + b[1] as int * 0x1_0000 + b[2] as int * 256 + b[3]
  }

  lemma U32RoundTrip(n: nat)
    requires n < LENGTH_LIMIT
    ensures FromU32(U32(n)) == n
  {
    assert n == n / 256 * 256 + n % 256;
    assert n / 256 == n / 256 / 256 * 256 + n / 256 % 256;
    assert n / 256 / 256 == n / 0x1_0000;
    assert n / 0x1_0000 == n / 0x1_0000 / 256 * 256 + n / 0x1_0000 % 256;
    assert n / 0x1_0000 / 256 == n / 0x100_0000;
  }

  lemma AppendByte(q: nat, r: byte)
    ensures (q * 256 + r) / 256 == q && (q * 256 + r) % 256 == r
  {
  }

  lemma FromU32Canonical(b: Bytes)
    requires |b| == 4
    ensures FromU32(b) < LENGTH_LIMIT && U32(FromU32(b)) == b
  {
    var one: nat := b[0] as int * 256 + b[1];
    var two: nat := one * 256 + b[2];
    var n: nat := two * 256 + b[3];
    AppendByte(b[0], b[1]);
    AppendByte(one, b[2]);
    AppendByte(two, b[3]);
    assert n == FromU32(b) && n < LENGTH_LIMIT;
    assert n / 0x1_0000 == n / 256 / 256 && n / 0x100_0000 == n / 0x1_0000 / 256;
  }

  function Marshal(t: Tlv): Result<Bytes, TlvError> {
    if |t.value| >= LENGTH_LIMIT then Err(TooLong)
    else Ok([t.typ] + U32(|t.value|) + t.value)
  }

  function Unmarshal(b: Bytes): Result<Tlv, TlvError> {
    if |b| < 5 then Err(Truncated)
    else if FromU32(b[1..5]) != |b| - 5 then Err(LengthMismatch)
    else Ok(Tlv(b[0], b[5..]))
  }

  /** The encoding is a bijection between encodable TLVs and decodable byte strings. */
  lemma MarshalBijective(t: Tlv, b: Bytes)
    ensures Marshal(t) == Ok(b) <==> Unmarshal(b) == Ok(t)
  {
    if Marshal(t) == Ok(b) {
      U32RoundTrip(|t.value|);
      assert b[1..5] == U32(|t.value|);
      assert b[5..] == t.value;
    }
    if Unmarshal(b) == Ok(t) {
      FromU32Canonical(b[1..5]);
      assert b == [b[0]] + b[1..5] + b[5..];
    }
  }

  /** The outer TLV of a COS event. */
  function ToTlv(c: CosTlv): Result<Tlv, TlvError> {
    match Marshal(Tlv(c.eventType, c.content))
    case Ok(data) => Ok(Tlv(COS_EVENT_TYPE, data))
    case Err(e) => Err(e)
  }

  /** The bytes that are hashed for a COS event. */
  function DigestMessage(c: CosTlv): Result<Bytes, TlvError> {
    match ToTlv(c)
    case Ok(t) => Marshal(t)
    case Err(e) => Err(e)
  }

  function GenerateDigest(h: Hash, a: HashAlg, c: CosTlv): Result<Bytes, TlvError> {
    match DigestMessage(c)
    case Ok(m) => Ok(h(a, m))
    case Err(e) => Err(e)
  }

  function ParseToCosTlv(t: Tlv): Result<CosTlv, TlvError> {
    if t.typ != COS_EVENT_TYPE then Err(NotCosEvent)
    else
      match Unmarshal(t.value)
      case Ok(inner) => Ok(CosTlv(inner.typ, inner.value))
      case Err(e) => Err(e)
  }

  /** The number that bytes stand for, the most significant one first. */
  function BigEndian(b: Bytes): nat {
    if b == [] then 0 else 256 * BigEndian(b[..|b| - 1]) + b[|b| - 1] as nat
  }

  lemma FromU32BigEndian(b: Bytes)
    requires |b| == 4
    ensures FromU32(b) == BigEndian(b)
  {
    assert b[..3][..2] == b[..2] && b[..2][..1] == b[..1] && b[..1][..0] == [];
    assert BigEndian(b[..1]) == b[0];
    assert BigEndian(b[..2]) == 256 * BigEndian(b[..1]) + b[1] as nat;
    assert BigEndian(b[..3]) == 256 * BigEndian(b[..2]) + b[2] as nat;
  }

  /** The hashed bytes, position by position: type 80 and the length of the rest, then the event type, the length of the
      content, and the content. */
  lemma MessageLayout(c: CosTlv, m: Bytes)
    ensures DigestMessage(c) == Ok(m) <==>
            && |m| == 10 + |c.content| && m[0] == 80 && BigEndian(m[1..5]) == 5 + |c.content|
            && m[5] == c.eventType && BigEndian(m[6..10]) == |c.content| && m[10..] == c.content
  {
    var inner := m[if |m| < 5 then |m| else 5..];
    MarshalBijective(Tlv(COS_EVENT_TYPE, inner), m);
    MarshalBijective(Tlv(c.eventType, c.content), inner);
    if DigestMessage(c).Ok? {
      MarshalBijective(ToTlv(c).value, DigestMessage(c).value);
      MarshalBijective(Tlv(c.eventType, c.content), ToTlv(c).value.value);
    }
    if |m| >= 10 {
      FromU32BigEndian(m[1..5]);
      FromU32BigEndian(m[6..10]);
      assert inner[1..5] == m[6..10] && inner[5..] == m[10..];
    }
  }

  /** An event can be measured exactly when both of its length fields can hold their lengths. */
  predicate Measurable(c: CosTlv) {
    |c.content| + 5 < LENGTH_LIMIT
  }

  lemma MeasurableIff(c: CosTlv)
    ensures DigestMessage(c).Ok? <==> Measurable(c)
  {
  }

  /** A record's content is accepted as an event exactly when it is that event's own encoding. */
  lemma ParseIffEncoded(t: Tlv, c: CosTlv)
    ensures ParseToCosTlv(t) == Ok(c) <==> ToTlv(c) == Ok(t)
  {
    MarshalBijective(Tlv(c.eventType, c.content), t.value);
  }

  /** Two events that are hashed as the same bytes are the same event. */
  lemma DigestMessageInjective(c: CosTlv, d: CosTlv)
    requires DigestMessage(c).Ok? && DigestMessage(c) == DigestMessage(d)
    ensures c == d
  {
    var b := DigestMessage(c).value;
    MarshalBijective(ToTlv(c).value, b);
    MarshalBijective(ToTlv(d).value, b);
    ParseIffEncoded(ToTlv(c).value, c);
    ParseIffEncoded(ToTlv(c).value, d);
  }
}

/** NAME=VALUE texts. */
module EnvVars {
  import opened Basics

  const EQUALS: byte := 61  // '='

  datatype EnvError = NameNotUtf8 | ValueNotUtf8 | BadName | NoEquals

  datatype EnvVar = EnvVar(name: Bytes, value: Bytes)

  predicate NameStart(b: byte) {
    65 <= b <= 90 || 97 <= b <= 122 || b == 95
  }

  predicate NameChar(b: byte) {
    NameStart(b) || 48 <= b <= 57
  }

  /** ^[a-zA-Z_][a-zA-Z0-9_]*$ */
  predicate ValidName(n: Bytes) {
    n != [] && NameStart(n[0]) && forall i | 0 <= i < |n| :: NameChar(n[i])
  }

  predicate Continuation(b: byte) {
    0x80 <= b <= 0xBF
  }

  /** Length of the well-formed UTF-8 sequence (section 4 of RFC 3629) that `s` starts with, or 0. */
  function RuneLength(s: Bytes): (n: nat)
    ensures n <= |s|
  {
    if s == [] then 0
    else if s[0] < 0x80 then 1
    else if |s| >= 2 && 0xC2 <= s[0] <= 0xDF && Continuation(s[1]) then 2
    else if |s| >= 3 && 0xE0 <= s[0] <= 0xEF && Continuation(s[1]) && Continuation(s[2])
            && (s[0] == 0xE0 ==> s[1] >= 0xA0) && (s[0] == 0xED ==> s[1] <= 0x9F) then 3
    else if |s| >= 4 && 0xF0 <= s[0] <= 0xF4 && Continuation(s[1]) && Continuation(s[2]) && Continuation(s[3])
            && (s[0] == 0xF0 ==> s[1] >= 0x90) && (s[0] == 0xF4 ==> s[1] <= 0x8F) then 4
    else 0
  }

  predicate ValidUtf8(s: Bytes) {
    s == [] || (RuneLength(s) > 0 && ValidUtf8(s[RuneLength(s)..]))
  }

  /** Names, by the last character: a letter or underscore first, then letters, digits and underscores. */
  lemma NameExact(n: Bytes, c: char)
    requires c as int < 128
    ensures !ValidName([])
    ensures ValidName([c as int]) <==> 'a' <= c <= 'z' || 'A' <= c <= 'Z' || c == '_'
    ensures n != [] ==>
              (ValidName(n + [c as int]) <==>
               ValidName(n) && ('a' <= c <= 'z' || 'A' <= c <= 'Z' || '0' <= c <= '9' || c == '_'))
  {
    var all := n + [c as int];
    assert forall i | 0 <= i < |n| :: all[i] == n[i];
    assert all[|n|] == c as int;
  }

  /** Characters of Unicode: code points other than surrogates. */
  predicate Scalar(r: int) {
    0 <= r < 0x11_0000 && !(0xD800 <= r <= 0xDFFF)
  }

  /** The UTF-8 encoding of a character (section 3 of RFC 3629). */
  function Utf8(r: int): Bytes
    requires Scalar(r)
  {
    if r < 0x80 then [r]
    else if r < 0x800 then [0xC0 + r / 0x40, 0x80 + r % 0x40]
    else if r < 0x1_0000 then [0xE0 + r / 0x1000, 0x80 + r / 0x40 % 0x40, 0x80 + r % 0x40]
    else [0xF0 + r / 0x4_0000, 0x80 + r / 0x1000 % 0x40, 0x80 + r / 0x40 % 0x40, 0x80 + r % 0x40]
  }

  predicate Scalars(text: seq<int>) {
    forall i | 0 <= i < |text| :: Scalar(text[i])
  }

  function Utf8All(text: seq<int>): Bytes
    requires Scalars(text)
  {
    if text == [] then [] else Utf8(text[0]) + Utf8All(text[1..])
  }

  lemma TwoRecognized(lead: byte, x: byte, rest: Bytes)
    requires 0xC2 <= lead <= 0xDF && Continuation(x)
    ensures RuneLength([lead, x] + rest) == 2
  {
  }

  lemma ThreeRecognized(lead: byte, x: byte, y: byte, rest: Bytes)
    requires 0xE0 <= lead <= 0xEF && Continuation(x) && Continuation(y)
    requires (lead == 0xE0 ==> x >= 0xA0) && (lead == 0xED ==> x <= 0x9F)
    ensures RuneLength([lead, x, y] + rest) == 3
  {
  }

  lemma FourRecognized(lead: byte, x: byte, y: byte, z: byte, rest: Bytes)
    requires 0xF0 <= lead <= 0xF4 && Continuation(x) && Continuation(y) && Continuation(z)
    requires (lead == 0xF0 ==> x >= 0x90) && (lead == 0xF4 ==> x <= 0x8F)
    ensures RuneLength([lead, x, y, z] + rest) == 4
  {
  }

  /** Every character's encoding is recognized, with its length. */
  lemma RuneOf(r: int, rest: Bytes)
    requires Scalar(r)
    ensures RuneLength(Utf8(r) + rest) == |Utf8(r)| > 0
  {
    var u := Utf8(r);
    if 0x80 <= r < 0x800 {
      TwoRecognized(u[0], u[1], rest);
    } else if 0x800 <= r < 0x1_0000 {
      ThreeRecognized(u[0], u[1], u[2], rest);
    } else if r >= 0x1_0000 {
      FourRecognized(u[0], u[1], u[2], u[3], rest);
    }
  }

  lemma SixBits(q: int, x: int)
    requires 0 <= x < 0x40
    ensures (q * 0x40 + x) / 0x40 == q && (q * 0x40 + x) % 0x40 == x
  {
  }

  lemma ThreeBytes(a: int, b: int, c: int)
    requires 0 <= a < 0x10 && 0 <= b < 0x40 && 0 <= c < 0x40
    ensures var r := (a * 0x40 + b) * 0x40 + c;
            r / 0x1000 == a && r / 0x40 % 0x40 == b && r % 0x40 == c
  {
    SixBits(a, b);
    SixBits(a * 0x40 + b, c);
  }

  lemma FourBytes(a: int, b: int, c: int, d: int)
    requires 0 <= a < 8 && 0 <= b < 0x40 && 0 <= c < 0x40 && 0 <= d < 0x40
    ensures var r := ((a * 0x40 + b) * 0x40 + c) * 0x40 + d;
            r / 0x4_0000 == a && r / 0x1000 % 0x40 == b && r / 0x40 % 0x40 == c && r % 0x40 == d
  {
    var r := ((a * 0x40 + b) * 0x40 + c) * 0x40 + d;
    SixBits((a * 0x40 + b) * 0x40 + c, d);
    SixBits(a * 0x40 + b, c);
    SixBits(a, b);
    assert r / 0x1000 == r / 0x40 / 0x40 && r / 0x4_0000 == r / 0x1000 / 0x40;
  }

  /** Every recognized sequence is some character's encoding. */
  lemma RuneExists(s: Bytes) returns (r: int)
    requires RuneLength(s) > 0
    ensures Scalar(r) && s[..RuneLength(s)] == Utf8(r)
  {
    var n := RuneLength(s);
    if n == 1 {
      r := s[0];
      assert s[..1] == [s[0]];
    } else if n == 2 {
      r := TwoExists(s[0], s[1]);
      assert s[..2] == [s[0], s[1]];
    } else if n == 3 {
      r := ThreeExists(s[0], s[1], s[2]);
      assert s[..3] == [s[0], s[1], s[2]];
    } else {
      r := FourExists(s[0], s[1], s[2], s[3]);
      assert s[..4] == [s[0], s[1], s[2], s[3]];
    }
  }

  lemma TwoExists(lead: byte, x: byte) returns (r: int)
    requires 0xC2 <= lead <= 0xDF && Continuation(x)
    ensures Scalar(r) && Utf8(r) == [lead, x]
  {
    var a: int, b: int := lead as int - 0xC0, x as int - 0x80;
    SixBits(a, b);
    r := a * 0x40 + b;
  }

  lemma ThreeExists(lead: byte, x: byte, y: byte) returns (r: int)
    requires 0xE0 <= lead <= 0xEF && Continuation(x) && Continuation(y)
    requires (lead == 0xE0 ==> x >= 0xA0) && (lead == 0xED ==> x <= 0x9F)
    ensures Scalar(r) && Utf8(r) == [lead, x, y]
  {
    var a: int, b: int, c: int := lead as int - 0xE0, x as int - 0x80, y as int - 0x80;
    ThreeBytes(a, b, c);
    r := (a * 0x40 + b) * 0x40 + c;
  }

  lemma FourExists(lead: byte, x: byte, y: byte, z: byte) returns (r: int)
    requires 0xF0 <= lead <= 0xF4 && Continuation(x) && Continuation(y) && Continuation(z)
    requires (lead == 0xF0 ==> x >= 0x90) && (lead == 0xF4 ==> x <= 0x8F)
    ensures Scalar(r) && Utf8(r) == [lead, x, y, z]
  {
    var a: int, b: int, c: int, d: int := lead as int - 0xF0, x as int - 0x80, y as int - 0x80, z as int - 0x80;
    FourBytes(a, b, c, d);
    r := ((a * 0x40 + b) * 0x40 + c) * 0x40 + d;
  }

  lemma {:induction false} EncodedIsValid(text: seq<int>)
    requires Scalars(text)
    ensures ValidUtf8(Utf8All(text))
  {
    if text != [] {
      var first, rest := Utf8(text[0]), Utf8All(text[1..]);
      EncodedIsValid(text[1..]);
      RuneOf(text[0], rest);
      assert (first + rest)[|first|..] == rest;
    }
  }

  lemma {:induction false} ValidIsEncoded(s: Bytes) returns (text: seq<int>)
    requires ValidUtf8(s)
    ensures Scalars(text) && s == Utf8All(text)
    decreases |s|
  {
    text := [];
    if s != [] {
      var n := RuneLength(s);
      var r := RuneExists(s);
      var rest := ValidIsEncoded(s[n..]);
      text := [r] + rest;
      assert text[1..] == rest && s == s[..n] + s[n..];
    }
  }

  function FormatEnvVar(name: Bytes, value: Bytes): Result<Bytes, EnvError> {
    if !ValidUtf8(name) then Err(NameNotUtf8)
    else if !ValidUtf8(value) then Err(ValueNotUtf8)
    else if !ValidName(name) then Err(BadName)
    else Ok(name + [EQUALS] + value)
  }

  ghost predicate Encodes(value: Bytes, text: seq<int>) {
    Scalars(text) && value == Utf8All(text)
  }

  /** Bytes are valid exactly if they are the encoding of some characters. */
  lemma Utf8Exact(value: Bytes)
    ensures ValidUtf8(value) <==> exists text :: Encodes(value, text)
  {
    if ValidUtf8(value) {
      var text := ValidIsEncoded(value);
      assert Encodes(value, text);
    } else {
      forall text ensures !Encodes(value, text) {
        if Scalars(text) {
          EncodedIsValid(text);
        }
      }
    }
  }

  lemma {:induction false} AsciiIsValid(s: Bytes)
    requires forall i | 0 <= i < |s| :: s[i] < 0x80
    ensures ValidUtf8(s)
  {
    if s != [] {
      AsciiIsValid(s[1..]);
    }
  }

  /** A name and a value can be written exactly if the name is valid and the value is the encoding of some text. */
  lemma FormatExact(name: Bytes, value: Bytes)
    ensures FormatEnvVar(name, value).Ok? <==> ValidName(name) && exists text :: Encodes(value, text)
    ensures FormatEnvVar(name, value).Ok? ==> FormatEnvVar(name, value).value == name + [61] + value
  {
    Utf8Exact(value);
    if ValidName(name) {
      AsciiIsValid(name);
    }
  }

  /** Position of the first '=', or the length. */
  function IndexOfEquals(s: Bytes): (i: nat)
    ensures i <= |s|
    ensures i < |s| ==> s[i] == EQUALS
    ensures forall k | 0 <= k < i :: s[k] != EQUALS
  {
    if s == [] || s[0] == EQUALS then 0 else 1 + IndexOfEquals(s[1..])
  }

  function ParseEnvVar(s: Bytes): Result<EnvVar, EnvError> {
    var i := IndexOfEquals(s);
    if i == |s| then Err(NoEquals)
    else
      match FormatEnvVar(s[..i], s[i + 1..])
      case Ok(_) => Ok(EnvVar(s[..i], s[i + 1..]))
      case Err(e) => Err(e)
  }

  /** Parsing undoes formatting and accepts nothing else. */
  lemma ParseIffFormatted(s: Bytes, e: EnvVar)
    ensures ParseEnvVar(s) == Ok(e) <==> FormatEnvVar(e.name, e.value) == Ok(s)
  {
    var i := IndexOfEquals(s);
    if FormatEnvVar(e.name, e.value) == Ok(s) {
      var k := |e.name|;
      assert s[k] == EQUALS;
      assert forall j | 0 <= j < k :: s[j] == e.name[j];
      assert i == k;
      assert s[..k] == e.name && s[k + 1..] == e.value;
    }
    if ParseEnvVar(s) == Ok(e) {
      assert s == s[..i] + [EQUALS] + s[i + 1..];
    }
  }
}
