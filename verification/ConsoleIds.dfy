/**
  The operator console's own derivation of observation ids: a name-based UUID built byte by
  byte. Its text spells the number that the API derives for the same record, and distinct
  records keep distinct ids.
*/
module ConsoleIds {
  import opened Wrappers
  import opened Observations
  import opened Pipeline
  import opened RawStore
  import opened Text

  type Sha1Digest = d: Bytes | |d| == 20 witness seq(20, _ => 0)

  type UuidBytes = b: Bytes | |b| == 16 witness seq(16, _ => 0)

  // ---------------------------------------------------------------- hexadecimal text

  const HEX_DIGITS := "0123456789abcdef"

  function HexOf(b: Byte): (s: string)
    ensures |s| == 2
  {
    [HEX_DIGITS[b / 16], HEX_DIGITS[b % 16]]
  }

  function Hex(bytes: Bytes): (s: string)
    ensures |s| == 2 * |bytes|
  {
    if bytes == [] then "" else HexOf(bytes[0]) + Hex(bytes[1..])
  }

  function FormatUuid(bytes: UuidBytes): (s: string)
    ensures |s| == 36
  {
    var hex := Hex(bytes);
    hex[..8] + "-" + hex[8..12] + "-" + hex[12..16] + "-" + hex[16..20] + "-" + hex[20..]
  }

  function NibbleOf(c: char): Option<nat> {
    if '0' <= c <= '9' then Some(c as nat - '0' as nat)
    else if 'a' <= c <= 'f' then Some(c as nat - 'a' as nat + 10)
    else if 'A' <= c <= 'F' then Some(c as nat - 'A' as nat + 10)
    else None
  }

  function WithoutDashes(s: string): string {
    if s == "" then "" else (if s[0] == '-' then "" else [s[0]]) + WithoutDashes(s[1..])
  }

  function Unhex(s: string): Option<Bytes> {
    if s == "" then Some([])
    else if |s| == 1 then None
    else
      var high, low, rest := NibbleOf(s[0]), NibbleOf(s[1]), Unhex(s[2..]);
      if high.None? || low.None? || rest.None? then None
      else
        Some([16 * high.value + low.value] + rest.value)
  }

  /** The sixteen bytes of a UUID text, dashes anywhere, letters of either case. */
  function ParseUuid(text: string): Option<UuidBytes> {
    var bytes := Unhex(WithoutDashes(text));
    if bytes.None? || |bytes.value| != 16 then None else Some(bytes.value)
  }

  lemma NibbleIff(c: char, n: nat)
    requires n < 16
    ensures NibbleOf(c) == Some(n) <==> c == "0123456789abcdef"[n] || c == "0123456789ABCDEF"[n]
  {
  }

  lemma NibbleRoundTrip(n: nat)
    requires n < 16
    ensures NibbleOf(HEX_DIGITS[n]) == Some(n) && HEX_DIGITS[n] != '-'
  {
  }

  lemma {:induction false} HexRoundTrip(bytes: Bytes)
    ensures Unhex(Hex(bytes)) == Some(bytes) && '-' !in Hex(bytes)
  {
    if bytes != [] {
      NibbleRoundTrip(bytes[0] / 16);
      NibbleRoundTrip(bytes[0] % 16);
      HexRoundTrip(bytes[1..]);
      var s, rest := Hex(bytes), Hex(bytes[1..]);
      assert s == HexOf(bytes[0]) + rest && s[2..] == rest;
      assert s[0] == HEX_DIGITS[bytes[0] / 16] && s[1] == HEX_DIGITS[bytes[0] % 16];
      assert bytes == [bytes[0]] + bytes[1..];
    }
  }

  lemma {:induction false} DashesAppend(a: string, b: string)
    ensures WithoutDashes(a + b) == WithoutDashes(a) + WithoutDashes(b)
  {
    if a == "" {
      assert a + b == b;
    } else {
      assert (a + b)[1..] == a[1..] + b;
      DashesAppend(a[1..], b);
    }
  }

  lemma {:induction false} NoDashesToDrop(s: string)
    requires '-' !in s
    ensures WithoutDashes(s) == s
  {
    if s != "" {
      NoDashesToDrop(s[1..]);
    }
  }

  lemma FinalDash(front: string, dash: string)
    requires dash == "-"
    ensures WithoutDashes(front + dash) == WithoutDashes(front)
  {
    DashesAppend(front, dash);
    assert dash[1..] == "" && WithoutDashes(dash[1..]) == "";
    assert WithoutDashes(dash) == "";
  }

  lemma DropDash(front: string, tail: string)
    requires '-' !in tail
    ensures WithoutDashes(front + "-" + tail) == WithoutDashes(front) + tail
  {
    var head := front + "-";
    FinalDash(front, "-");
    DashesAppend(head, tail);
    NoDashesToDrop(tail);
  }

  lemma DropDashes(a: string, b: string, c: string, d: string, e: string)
    requires '-' !in a && '-' !in b && '-' !in c && '-' !in d && '-' !in e
    ensures WithoutDashes(a + "-" + b + "-" + c + "-" + d + "-" + e) == a + b + c + d + e
  {
    NoDashesToDrop(a);
    DropDash(a, b);
    DropDash(a + "-" + b, c);
    DropDash(a + "-" + b + "-" + c, d);
    DropDash(a + "-" + b + "-" + c + "-" + d, e);
  }

  lemma FivePieces(h: string)
    requires |h| == 32
    ensures h[..8] + h[8..12] + h[12..16] + h[16..20] + h[20..] == h
  {
  }

  /** Without its dashes the text is the hexadecimal text of the bytes. */
  lemma FormattedHex(bytes: UuidBytes)
    requires '-' !in Hex(bytes)
    ensures WithoutDashes(FormatUuid(bytes)) == Hex(bytes)
  {
    var h := Hex(bytes);
    DropDashes(h[..8], h[8..12], h[12..16], h[16..20], h[20..]);
    FivePieces(h);
  }

  /** Parsing a formatted UUID gives its bytes back, so formatting is injective. */
  lemma UuidRoundTrip(bytes: UuidBytes)
    ensures ParseUuid(FormatUuid(bytes)) == Some(bytes)
  {
    HexRoundTrip(bytes);
    FormattedHex(bytes);
  }

  // ---------------------------------------------------------------- the derivation

  /** The version nibble set to 5 and the variant bits to binary 10. */
  function Stamped(b: UuidBytes): (r: UuidBytes) {
    b[6 := b[6] % 16 + 0x50][8 := b[8] % 64 + 0x80]
  }

  /** What is computed outside this module: the hash and the text encoding. */
  datatype Outside = Outside(sha1: Bytes -> Sha1Digest, utf8: string -> Bytes, namespaceBytes: UuidBytes)

  function NameBasedBytes(outside: Outside, name: string): UuidBytes {
    Stamped(outside.sha1(outside.namespaceBytes + outside.utf8(name))[..16])
  }

  /** The id text the console derives for a record. */
  function ConsoleId(outside: Outside, digest: string, decoder: string, index: nat): string {
    FormatUuid(NameBasedBytes(outside, IdentityName(digest, decoder, index)))
  }

  method DeterministicObservationId(outside: Outside, sourceDigest: string, decoderVersion: string, recordIndex: nat)
    returns (id: string)
    ensures id == ConsoleId(outside, sourceDigest, decoderVersion, recordIndex)
  {
    var spaceBytes := outside.namespaceBytes;
    var name := outside.utf8(IdentityName(sourceDigest, decoderVersion, recordIndex));
    var input := new Byte[|spaceBytes| + |name|](_ => 0);
    for k := 0 to |spaceBytes|
      invariant input[..k] == spaceBytes[..k]
    {
      input[k] := spaceBytes[k];
    }
    for k := 0 to |name|
      invariant input[..|spaceBytes| + k] == spaceBytes + name[..k]
    {
      input[|spaceBytes| + k] := name[k];
    }
    assert input[..] == spaceBytes + name;
    var digest := outside.sha1(input[..]);
    var bytes := new Byte[16](k requires 0 <= k < 16 => digest[k]);
    bytes[6] := bytes[6] % 16 + 0x50;
    bytes[8] := bytes[8] % 64 + 0x80;
    assert bytes[..] == Stamped(digest[..16]);
    id := FormatUuid(bytes[..]);
  }

  // ---------------------------------------------------------------- what an id says

  lemma {:induction false} HexAt(bytes: Bytes, i: nat)
    requires i < |bytes|
    ensures Hex(bytes)[2 * i] == HexOf(bytes[i])[0] && Hex(bytes)[2 * i + 1] == HexOf(bytes[i])[1]
  {
    if i > 0 {
      HexAt(bytes[1..], i - 1);
    }
  }

  /** Every id reads as a version 5 UUID of the standard variant, in canonical layout. */
  lemma IdLayout(b: UuidBytes)
    ensures var id := FormatUuid(Stamped(b));
      && id[8] == id[13] == id[18] == id[23] == '-'
      && id[14] == '5'
      && id[19] in "89ab"
  {
    var hex := Hex(Stamped(b));
    HexAt(Stamped(b), 6);
    HexAt(Stamped(b), 8);
    assert FormatUuid(Stamped(b))[14] == hex[12];
    assert FormatUuid(Stamped(b))[19] == hex[16];
  }

  /** The six stamped bits aside, an id is the first sixteen bytes of the hash. */
  lemma OnlySixBitsStamped(b: UuidBytes, c: UuidBytes)
    ensures Stamped(b) == Stamped(c) <==>
      && (forall k | 0 <= k < 16 && k != 6 && k != 8 :: b[k] == c[k])
      && b[6] % 16 == c[6] % 16
      && b[8] % 64 == c[8] % 64
  {
    forall k | 0 <= k < 16
      ensures Stamped(b)[k] == if k == 6 then b[6] % 16 + 0x50 else if k == 8 then b[8] % 64 + 0x80 else b[k]
      ensures Stamped(c)[k] == if k == 6 then c[6] % 16 + 0x50 else if k == 8 then c[8] % 64 + 0x80 else c[k]
    {
    }
  }

  /** Unless the hash collides, two records share a console id only if they are the same record. */
  lemma ConsoleIdsAgreeIff(outside: Outside, d1: string, v1: string, i1: nat, d2: string, v2: string, i2: nat)
    requires IsDigest(d1) && IsDigest(d2)
    requires var a, b := IdentityName(d1, v1, i1), IdentityName(d2, v2, i2);
      NameBasedBytes(outside, a) == NameBasedBytes(outside, b) ==> a == b
    ensures ConsoleId(outside, d1, v1, i1) == ConsoleId(outside, d2, v2, i2) <==> d1 == d2 && v1 == v2 && i1 == i2
  {
    var a, b := NameBasedBytes(outside, IdentityName(d1, v1, i1)), NameBasedBytes(outside, IdentityName(d2, v2, i2));
    if FormatUuid(a) == FormatUuid(b) {
      UuidRoundTrip(a);
      UuidRoundTrip(b);
      IdentityNameIsInjective(d1, v1, i1, d2, v2, i2);
    }
  }

  /** Read back, an id is the first sixteen bytes of the hash of namespace and name, with six bits set. */
  lemma IdSpellsHash(outside: Outside, digest: string, decoder: string, index: nat)
    ensures var hash := outside.sha1(
        outside.namespaceBytes + outside.utf8(digest + "|" + decoder + "|" + Decimal(index)));
      var parsed := ParseUuid(ConsoleId(outside, digest, decoder, index));
      && parsed.Some?
      && forall k | 0 <= k < 16 :: parsed.value[k]
           == if k == 6 then 0x50 + hash[6] % 16 else if k == 8 then 0x80 + hash[8] % 64 else hash[k]
  {
    UuidRoundTrip(NameBasedBytes(outside, IdentityName(digest, decoder, index)));
  }

  // ---------------------------------------------------------------- agreement with the API

  /** The number that bytes spell, the most significant first. */
  function NumberOf(bytes: Bytes): nat {
    if bytes == [] then 0 else 256 * NumberOf(bytes[..|bytes| - 1]) + bytes[|bytes| - 1]
  }

  lemma {:induction false} NumberIsInjective(a: Bytes, b: Bytes)
    requires |a| == |b| && NumberOf(a) == NumberOf(b)
    ensures a == b
  {
    if a != [] {
      var n := |a| - 1;
      NumberIsInjective(a[..n], b[..n]);
      assert a == a[..n] + [a[n]] && b == b[..n] + [b[n]];
    }
  }

  const TWO_56 := 0x0100_0000_0000_0000
  const TWO_62 := 0x4000_0000_0000_0000
  const TWO_64 := 0x1_0000_0000_0000_0000
  const TWO_72 := 0x0100_0000_0000_0000_0000
  const TWO_76 := 0x1000_0000_0000_0000_0000
  const TWO_80 := 0x1_0000_0000_0000_0000_0000

  /** Bits 62 and 63 cleared and set to binary 10. */
  function WithVariant(n: nat): nat {
    n / TWO_64 * TWO_64 + 2 * TWO_62 + n % TWO_62
  }

  /** Bits 76 to 79 cleared and set to 5. */
  function WithVersion(n: nat): nat {
    n / TWO_80 * TWO_80 + 5 * TWO_76 + n % TWO_76
  }

  /**
    The API's name-based UUID (section 5.5 of RFC 9562): the hash prefix is read as one 128-bit
    number, and variant and version are set by arithmetic on that number.
  */
  function Uuid5(outside: Outside): string -> Uuid {
    (name: string) =>
      WithVersion(WithVariant(NumberOf(outside.sha1(outside.namespaceBytes + outside.utf8(name))[..16])))
  }

  // ---------------------------------------------------------------- bytes and bits of one number

  /** What the seven bytes after the variant byte spell. */
  function LowPart(b: UuidBytes): (n: nat)
    ensures n < TWO_56
  {
    0x1_0000_0000_0000 * b[9] as int + 0x100_0000_0000 * b[10] as int + 0x1_0000_0000 * b[11] as int
    + 0x100_0000 * b[12] as int + 0x1_0000 * b[13] as int + 0x100 * b[14] as int + b[15] as int
  }

  lemma OneByteMore(b: Bytes, k: nat)
    requires k < |b|
    ensures NumberOf(b[..k + 1]) == 256 * NumberOf(b[..k]) + b[k]
  {
    assert b[..k + 1][..k] == b[..k];
  }

  lemma LowBytes(b: UuidBytes)
    ensures NumberOf(b) == NumberOf(b[..9]) * TWO_56 + LowPart(b)
  {
    OneByteMore(b, 9);
    OneByteMore(b, 10);
    OneByteMore(b, 11);
    OneByteMore(b, 12);
    OneByteMore(b, 13);
    OneByteMore(b, 14);
    OneByteMore(b, 15);
    assert b[..16] == b;
  }

  lemma NumberParts(b: UuidBytes)
    ensures NumberOf(b) == NumberOf(b[..6]) * TWO_80 + b[6] * TWO_72 + b[7] * TWO_64 + b[8] * TWO_56 + LowPart(b)
  {
    LowBytes(b);
    OneByteMore(b, 6);
    OneByteMore(b, 7);
    OneByteMore(b, 8);
  }

  lemma Above64(n: nat, above: nat, rest: nat)
    requires n == above * TWO_64 + rest && rest < TWO_64
    ensures n / TWO_64 == above
  {
  }

  lemma Below62(n: nat, above: nat, rest: nat)
    requires n == above * TWO_62 + rest && rest < TWO_62
    ensures n % TWO_62 == rest
  {
  }

  lemma Above80(n: nat, above: nat, rest: nat)
    requires n == above * TWO_80 + rest && rest < TWO_80
    ensures n / TWO_80 == above
  {
  }

  lemma Below76(n: nat, above: nat, rest: nat)
    requires n == above * TWO_76 + rest && rest < TWO_76
    ensures n % TWO_76 == rest
  {
  }

  lemma VariantIsByte8(n: nat, above: nat, top: nat, bits: nat, low: nat)
    requires n == above * TWO_64 + (top * 64 + bits) * TWO_56 + low && top < 4 && bits < 64 && low < TWO_56
    ensures WithVariant(n) == above * TWO_64 + (0x80 + bits) * TWO_56 + low
  {
    Above64(n, above, (top * 64 + bits) * TWO_56 + low);
    Below62(n, above * 4 + top, bits * TWO_56 + low);
  }

  lemma VersionIsByte6(n: nat, above: nat, top: nat, bits: nat, low: nat)
    requires n == above * TWO_80 + (top * 16 + bits) * TWO_72 + low && top < 16 && bits < 16 && low < TWO_72
    ensures WithVersion(n) == above * TWO_80 + (0x50 + bits) * TWO_72 + low
  {
    Above80(n, above, (top * 16 + bits) * TWO_72 + low);
    Below76(n, above * 16 + top, bits * TWO_72 + low);
  }

  lemma ByteInTwo(byte: Byte, d: nat)
    requires d == 16 || d == 64
    ensures byte == byte / d * d + byte % d && byte / d < 256 / d
  {
  }

  /** Setting the bits of the number is setting them in the seventh and the ninth byte. */
  lemma StampsAgree(b: UuidBytes)
    ensures WithVersion(WithVariant(NumberOf(b))) == NumberOf(Stamped(b))
  {
    var c := Stamped(b);
    var high, low := NumberOf(b[..6]), LowPart(b);
    NumberParts(b);
    NumberParts(c);
    assert c[..6] == b[..6] && LowPart(c) == low;
    ByteInTwo(b[6], 16);
    ByteInTwo(b[8], 64);
    var above := high * 0x1_0000 + b[6] as int * 0x100 + b[7] as int;
    VariantIsByte8(NumberOf(b), above, b[8] / 64, b[8] % 64, low);
    VersionIsByte6(WithVariant(NumberOf(b)), high, b[6] / 16, b[6] % 16, b[7] * TWO_64 + c[8] * TWO_56 + low);
  }

  // ---------------------------------------------------------------- one id on both sides

  /** The console's text, parsed, is the API's number for the same record. */
  lemma ConsoleIdIsApiId(outside: Outside, digest: string, decoder: string, index: nat)
    ensures var parsed := ParseUuid(ConsoleId(outside, digest, decoder, index));
      parsed.Some? && NumberOf(parsed.value) == DeriveObservationId(Uuid5(outside), digest, decoder, index)
  {
    var name := IdentityName(digest, decoder, index);
    UuidRoundTrip(NameBasedBytes(outside, name));
    StampsAgree(outside.sha1(outside.namespaceBytes + outside.utf8(name))[..16]);
  }

  /** Whatever the hash does, two records share a console id exactly when they share an API id. */
  lemma SharedOnBothSidesIff(outside: Outside, d1: string, v1: string, i1: nat, d2: string, v2: string, i2: nat)
    ensures ConsoleId(outside, d1, v1, i1) == ConsoleId(outside, d2, v2, i2)
      <==> DeriveObservationId(Uuid5(outside), d1, v1, i1) == DeriveObservationId(Uuid5(outside), d2, v2, i2)
  {
    ConsoleIdIsApiId(outside, d1, v1, i1);
    ConsoleIdIsApiId(outside, d2, v2, i2);
    var a, b := NameBasedBytes(outside, IdentityName(d1, v1, i1)), NameBasedBytes(outside, IdentityName(d2, v2, i2));
    UuidRoundTrip(a);
    UuidRoundTrip(b);
    if NumberOf(a) == NumberOf(b) {
      NumberIsInjective(a, b);
    }
  }
}
