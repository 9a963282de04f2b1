/** GCE firmware versions as the UCS-2 text of an S-CRTM version event. */
module FirmwareVersion {
  import opened Basics

  const U32_LIMIT: nat := 0x1_0000_0000

  datatype VersionError = BadLength | MissingPrefix | BadUcs2 | NotANumber

  // ----- Text

  /** Little-endian UCS-2 of ASCII text. */
  function Ucs2(s: Bytes): (b: Bytes)
    ensures |b| == 2 * |s|
  {
    if s == [] then [] else Ucs2(s[..|s| - 1]) + [s[|s| - 1], 0]
  }

  function NonZero(b: Bytes): Bytes {
    if b == [] then [] else NonZero(b[..|b| - 1]) + if b[|b| - 1] == 0 then [] else [b[|b| - 1]]
  }

  /** Decimal text of a number, without leading zeros. */
  function Digits(n: nat): (s: Bytes)
    ensures s != [] && AllDigits(s)
  {
    if n < 10 then [48 + n] else Digits(n / 10) + [48 + n % 10]
  }

  lemma {:induction false} ValueOfDigits(n: nat)
    ensures Value(Digits(n)) == n
  {
    if n < 10 {
      assert Digits(n)[..0] == [];
    } else {
      ValueOfDigits(n / 10);
      assert Digits(n)[..|Digits(n)| - 1] == Digits(n / 10);
    }
  }

  /** Base-10 parsing into 32 bits. */
  function ParseUint(s: Bytes): Option<nat> {
    if s != [] && AllDigits(s) && Value(s) < U32_LIMIT then Some(Value(s)) else None
  }

  lemma {:induction false} Ucs2Concat(s: Bytes, t: Bytes)
    ensures Ucs2(s + t) == Ucs2(s) + Ucs2(t)
  {
    if t == [] {
      assert s + t == s;
    } else {
      assert (s + t)[..|s + t| - 1] == s + t[..|t| - 1];
      Ucs2Concat(s, t[..|t| - 1]);
    }
  }

  lemma Ucs2Pair(a: byte, b: byte)
    ensures Ucs2([a, b]) == [a, 0, b, 0]
  {
    assert [a, b][..1] == [a] && [a][..0] == [];
    assert Ucs2([a]) == [a, 0];
  }

  lemma Ucs2Four(s: Bytes)
    requires |s| == 4
    ensures Ucs2(s) == [s[0], 0, s[1], 0, s[2], 0, s[3], 0]
  {
    Ucs2Pair(s[0], s[1]);
    Ucs2Pair(s[2], s[3]);
    Ucs2Concat([s[0], s[1]], [s[2], s[3]]);
    assert s == [s[0], s[1]] + [s[2], s[3]];
  }

  // ----- Printing

  const PREFIX_START: Bytes := [
    0x47, 0x00, 0x43, 0x00, 0x45, 0x00, 0x20, 0x00, 0x56, 0x00, 0x69, 0x00, 0x72, 0x00, 0x74, 0x00, 0x75, 0x00, 0x61, 0x00,
    0x6c, 0x00, 0x20, 0x00]
  const PREFIX_END: Bytes := [
    0x46, 0x00, 0x69, 0x00, 0x72, 0x00, 0x6d, 0x00, 0x77, 0x00, 0x61, 0x00, 0x72, 0x00, 0x65, 0x00, 0x20, 0x00, 0x76, 0x00]
  const PREFIX: Bytes := PREFIX_START + PREFIX_END

  /** The prefix in readable form. */
  lemma PrefixText()
    ensures PREFIX == Ucs2(Ascii("GCE Virtual Firmware v"))
  {
    var t := Ascii("GCE Virtual Firmware v");
    PrefixStart(t[..12]);
    PrefixEnd(t[12..]);
    Ucs2Concat(t[..12], t[12..]);
    assert t == t[..12] + t[12..];
  }

  lemma PrefixStart(t: Bytes)
    requires t == [0x47, 0x43, 0x45, 0x20, 0x56, 0x69, 0x72, 0x74, 0x75, 0x61, 0x6c, 0x20]
    ensures Ucs2(t) == PREFIX_START
  {
    Ucs2Four(t[..4]);
    Ucs2Four(t[4..8]);
    Ucs2Four(t[8..]);
    Ucs2Concat(t[..4], t[4..8]);
    Ucs2Concat(t[..4] + t[4..8], t[8..]);
    assert t == t[..4] + t[4..8] + t[8..];
  }

  lemma PrefixEnd(t: Bytes)
    requires t == [0x46, 0x69, 0x72, 0x6d, 0x77, 0x61, 0x72, 0x65, 0x20, 0x76]
    ensures Ucs2(t) == PREFIX_END
  {
    Ucs2Four(t[..4]);
    Ucs2Four(t[4..8]);
    Ucs2Pair(t[8], t[9]);
    Ucs2Concat(t[..4], t[4..8]);
    Ucs2Concat(t[..4] + t[4..8], t[8..]);
    assert t == t[..4] + t[4..8] + t[8..] && t[8..] == [t[8], t[9]];
  }

  /** The version text after the prefix, with its terminator; version 0 has no text at all. */
  function Printed(v: nat): Bytes {
    if v == 0 then [] else PREFIX + (Ucs2(Digits(v)) + [0, 0])
  }

  method ConvertGCEFirmwareVersionToSCRTMVersion(version: nat) returns (b: Bytes)
    requires version < U32_LIMIT
    ensures b == Printed(version)
  {
    if version == 0 {
      return [];
    }
    b := AppendUcs2(PREFIX, Digits(version));
    b := b + [0, 0];
  }

  method AppendUcs2(prefix: Bytes, digits: Bytes) returns (b: Bytes)
    ensures b == prefix + Ucs2(digits)
  {
    b := prefix;
    var i := 0;
    while i < |digits|
      invariant 0 <= i <= |digits|
      invariant b == prefix + Ucs2(digits[..i])
    {
      assert digits[..i + 1][..i] == digits[..i];
      b := b + [digits[i], 0];
      i := i + 1;
    }
    assert digits[..i] == digits;
  }

  // ----- Parsing

  /** Every second byte of the text is zero. */
  predicate ZeroHighBytes(text: Bytes) {
    forall i | 0 <= i < |text| && i % 2 == 1 :: text[i] == 0
  }

  /** The number in UCS-2 text after a prefix; zero bytes are ignored. */
  function ParsedAfter(prefix: Bytes, b: Bytes): Option<nat> {
    if |b| > |prefix| && |b| % 2 == 0 && b[..|prefix|] == prefix && ZeroHighBytes(b[|prefix|..])
    then ParseUint(NonZero(b[|prefix|..])) else None
  }

  function Parsed(b: Bytes): Option<nat> {
    ParsedAfter(PREFIX, b)
  }

  method ConvertSCRTMVersionToGCEFirmwareVersion(version: Bytes) returns (r: Result<nat, VersionError>)
    ensures r.Ok? <==> Parsed(version).Some?
    ensures r.Ok? ==> r.value == Parsed(version).value
  {
    if |version| <= |PREFIX| || |version| % 2 != 0 {
      return Err(BadLength);
    }
    if version[..|PREFIX|] != PREFIX {
      return Err(MissingPrefix);
    }
    var text := version[|PREFIX|..];
    var ascii := [];
    var i := 0;
    while i < |text|
      invariant 0 <= i <= |text|
      invariant ascii == NonZero(text[..i])
      invariant ZeroHighBytes(text[..i])
    {
      assert text[..i + 1][..i] == text[..i];
      if text[i] != 0 {
        if i % 2 != 0 {
          return Err(BadUcs2);
        }
        ascii := ascii + [text[i]];
      }
      i := i + 1;
    }
    assert text[..i] == text;
    var n := ParseUint(ascii);
    if n.None? {
      return Err(NotANumber);
    }
    return Ok(n.value);
  }

  // ----- Round trip

  lemma {:induction false} NonZeroOfUcs2(s: Bytes)
    requires forall i | 0 <= i < |s| :: s[i] != 0
    ensures NonZero(Ucs2(s)) == s
  {
    if s != [] {
      var front, last := s[..|s| - 1], s[|s| - 1];
      NonZeroOfUcs2(front);
      var b := Ucs2(front);
      assert (b + [last, 0])[..|b| + 1] == b + [last];
      assert (b + [last])[..|b|] == b;
      assert s == front + [last];
    }
  }

  lemma NonZeroTerminated(b: Bytes)
    ensures NonZero(b + [0, 0]) == NonZero(b)
  {
    assert (b + [0, 0])[..|b| + 1] == b + [0];
    assert (b + [0])[..|b|] == b;
  }

  lemma ZeroHighBytesSnoc(text: Bytes, x: byte)
    requires |text| % 2 == 0 && ZeroHighBytes(text)
    ensures ZeroHighBytes(text + [x, 0])
  {
  }

  lemma {:induction false} ZeroHighBytesOfUcs2(s: Bytes)
    ensures ZeroHighBytes(Ucs2(s))
  {
    if s != [] {
      ZeroHighBytesOfUcs2(s[..|s| - 1]);
      ZeroHighBytesSnoc(Ucs2(s[..|s| - 1]), s[|s| - 1]);
    }
  }

  lemma ParsedAfterText(prefix: Bytes, text: Bytes)
    requires |prefix| % 2 == 0 && |text| % 2 == 0 && text != [] && ZeroHighBytes(text)
    ensures ParsedAfter(prefix, prefix + text) == ParseUint(NonZero(text))
  {
    TextAfter(prefix, text);
    EvenSum(|prefix|, |text|);
  }

  lemma EvenSum(m: nat, n: nat)
    requires m % 2 == 0 && n % 2 == 0
    ensures (m + n) % 2 == 0
  {
  }

  lemma TextAfter(prefix: Bytes, text: Bytes)
    ensures (prefix + text)[..|prefix|] == prefix && (prefix + text)[|prefix|..] == text
  {
  }

  /** Terminated text of digits. */
  lemma TerminatedText(s: Bytes)
    requires AllDigits(s)
    ensures NonZero(Ucs2(s) + [0, 0]) == s && ZeroHighBytes(Ucs2(s) + [0, 0])
  {
    NonZeroTerminated(Ucs2(s));
    NonZeroOfUcs2(s);
    ZeroHighBytesOfUcs2(s);
    ZeroHighBytesSnoc(Ucs2(s), 0);
  }

  /** Any digits printed after an even prefix are read back as their value. */
  lemma ParseText(prefix: Bytes, s: Bytes)
    requires |prefix| % 2 == 0 && AllDigits(s) && s != []
    ensures ParsedAfter(prefix, prefix + (Ucs2(s) + [0, 0])) == ParseUint(s)
  {
    TerminatedText(s);
    ParsedAfterText(prefix, Ucs2(s) + [0, 0]);
  }

  /** Parsing a printed version gives it back, except that version 0 is printed as no text and is rejected. */
  lemma ParsePrinted(v: nat)
    requires v < 0x1_0000_0000
    ensures Parsed(Printed(v)) == if v == 0 then None else Some(v)
  {
    if v != 0 {
      ParseText(PREFIX, Digits(v));
      ValueOfDigits(v);
    }
  }

  /** Different versions have different texts. */
  lemma PrintedInjective(v: nat, w: nat)
    requires v < U32_LIMIT && w < U32_LIMIT && Printed(v) == Printed(w)
    ensures v == w
  {
    ParsePrinted(v);
    ParsePrinted(w);
  }

  /** The parser is not injective: leading zeros and embedded zero bytes are accepted too. */
  lemma ParsedNotInjective()
    ensures var b := PREFIX + (Ucs2([48, 55]) + [0, 0]);
            b != Printed(7) && Parsed(b) == Some(7) == Parsed(Printed(7))
  {
    var s: Bytes := [48, 55];
    ParsePrinted(7);
    ParseText(PREFIX, s);
    assert Value(s) == 7 by {
      assert s[..1] == [48] && s[..1][..0] == [];
    }
    assert |Ucs2(s)| == 4 && |Ucs2(Digits(7))| == 2;
  }

  // ----- Canonical texts

  /** A number without leading zeros. */
  predicate Plain(s: Bytes) {
    s != [] && AllDigits(s) && s[0] != 48
  }

  /** The prefix, the UCS-2 text of a number without leading zeros, and one terminator. */
  predicate CanonicalAfter(prefix: Bytes, b: Bytes) {
    && |b| > |prefix|
    && var s := NonZero(b[|prefix|..]); Plain(s) && b == prefix + (Ucs2(s) + [0, 0])
  }

  predicate Canonical(b: Bytes) {
    CanonicalAfter(PREFIX, b)
  }

  lemma {:induction false} DigitsOfValue(s: Bytes)
    requires Plain(s)
    ensures Value(s) > 0 && Digits(Value(s)) == s
  {
    var front, last := s[..|s| - 1], s[|s| - 1];
    assert s == front + [last];
    if front == [] {
      assert Value(front) == 0;
    } else {
      DigitsOfValue(front);
      assert Value(s) / 10 == Value(front) && Value(s) % 10 == last - 48;
    }
  }

  lemma {:induction false} DigitsPlain(n: nat)
    requires n > 0
    ensures Plain(Digits(n))
  {
    if n >= 10 {
      DigitsPlain(n / 10);
    }
  }

  lemma TextIsCanonical(prefix: Bytes, s: Bytes)
    requires Plain(s)
    ensures CanonicalAfter(prefix, prefix + (Ucs2(s) + [0, 0]))
  {
    TextAfter(prefix, Ucs2(s) + [0, 0]);
    TerminatedText(s);
  }

  lemma CanonicalAfterParses(prefix: Bytes, b: Bytes, v: nat)
    requires 0 < v < U32_LIMIT && |prefix| % 2 == 0
    ensures ParsedAfter(prefix, b) == Some(v) && CanonicalAfter(prefix, b) <==> b == prefix + (Ucs2(Digits(v)) + [0, 0])
  {
    if b == prefix + (Ucs2(Digits(v)) + [0, 0]) {
      ParseText(prefix, Digits(v));
      ValueOfDigits(v);
      DigitsPlain(v);
      TextIsCanonical(prefix, Digits(v));
    }
    if ParsedAfter(prefix, b) == Some(v) && CanonicalAfter(prefix, b) {
      var s := NonZero(b[|prefix|..]);
      ParseText(prefix, s);
      DigitsOfValue(s);
    }
  }

  /** Among canonical texts, exactly the printed version parses to a version. */
  lemma CanonicalParses(b: Bytes, v: nat)
    requires 0 < v < U32_LIMIT
    ensures Parsed(b) == Some(v) && Canonical(b) <==> b == Printed(v)
  {
    CanonicalAfterParses(PREFIX, b, v);
  }

  /** Every canonical text of a 32-bit number is some printed version, so that parsing is injective on canonical
      texts. */
  lemma ParsedInjectiveOnCanonical(b: Bytes, c: Bytes)
    requires Canonical(b) && Canonical(c) && Parsed(b).Some? && Parsed(b) == Parsed(c)
    ensures b == c == Printed(Parsed(b).value)
  {
    var s := NonZero(b[|PREFIX|..]);
    ParseText(PREFIX, s);
    DigitsOfValue(s);
    CanonicalParses(b, Parsed(b).value);
    CanonicalParses(c, Parsed(b).value);
  }

  // ----- Allow lists

  datatype Firmware = ScrtmVersionId(id: Bytes) | GceVersion(version: nat) | NoFirmware

  method HasAllowedVersion(firmware: Firmware, allowed: seq<Bytes>) returns (ok: bool)
    requires firmware.GceVersion? ==> firmware.version < U32_LIMIT
    ensures ok <==>
            || (firmware.ScrtmVersionId? && firmware.id in allowed)
            || (firmware.GceVersion? && Printed(firmware.version) in allowed)
  {
    var version;
    match firmware {
      case ScrtmVersionId(id) => version := id;
      case GceVersion(v) => version := ConvertGCEFirmwareVersionToSCRTMVersion(v);
      case NoFirmware => return false;
    }
    var i := 0;
    while i < |allowed|
      invariant 0 <= i <= |allowed|
      invariant version !in allowed[..i]
    {
      if version == allowed[i] {
        return true;
      }
      i := i + 1;
    }
    return false;
  }

  /** An allow list of printed GCE versions admits exactly those versions. */
  lemma AllowListExact(v: nat, versions: seq<nat>, allowed: seq<Bytes>)
    requires v < U32_LIMIT && |allowed| == |versions|
    requires forall i | 0 <= i < |versions| :: versions[i] < U32_LIMIT && allowed[i] == Printed(versions[i])
    ensures Printed(v) in allowed <==> v in versions
  {
    if Printed(v) in allowed {
      var i :| 0 <= i < |allowed| && allowed[i] == Printed(v);
      PrintedInjective(v, versions[i]);
    }
    if v in versions {
      var i :| 0 <= i < |versions| && versions[i] == v;
      assert allowed[i] == Printed(v);
    }
  }
}
