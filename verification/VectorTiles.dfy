/**
  The binary U/V tile: a 42-byte big-endian header and interleaved signed 16-bit samples.
  Doubles stay opaque eight-byte words behind a codec.
*/
module VectorTiles {
  import opened Wrappers
  import opened Quantizer
  import opened RealArithmetic

  const MAGIC: Bytes := [0x57, 0x56, 0x45, 0x43]
  const VERSION := 1
  const FLAGS := 0
  const HEADER_SIZE := 42
  const SAMPLE_SIZE := 4
  const SIDE_LIMIT := 65535

  type Word64 = w: Bytes | |w| == 8 witness [0, 0, 0, 0, 0, 0, 0, 0]

  /** How a double is written and read; reading a word that is not finite gives None. */
  datatype Doubles = Doubles(largest: real, write: real -> Word64, read: Word64 -> Option<real>)

  /** A real that a double holds without rounding. */
  predicate Exact(d: Doubles, x: real) {
    d.read(d.write(x)) == Some(x)
  }

  /** A real whose word comes back when it is read and written again, as the word of a double does. */
  predicate Stable(d: Doubles, x: real) {
    match d.read(d.write(x))
    case None => false
    case Some(y) => d.write(y) == d.write(x)
  }

  datatype Header = Header(width: int, height: int, scaleU: real, offsetU: real, scaleV: real, offsetV: real)

  datatype Tile = Tile(header: Header, u: seq<real>, v: seq<real>)

  datatype TileError =
    | NonPositiveDimensions
    | DimensionsTooLarge
    | ComponentLengthsDiffer
    | SampleCountMismatch
    | NonFiniteComponent
    | Unquantizable(reason: QuantizeError)
    | ShorterThanHeader
    | InvalidMagic
    | UnsupportedVersion(version: int)
    | UnsupportedFlags
    | NonFiniteMetadata
    | NonPositiveScale
    | LengthMismatch
    | NonFiniteSamples

  // ---------------------------------------------------------------- big-endian integers

  function WriteUnsigned16(x: int): (r: Bytes)
    requires 0 <= x <= 65535
    ensures |r| == 2
  {
    [x / 256, x % 256]
  }

  function ReadUnsigned16(high: Byte, low: Byte): (x: int)
    ensures 0 <= x <= 65535
  {
    256 * high + low
  }

  /** Two's complement. */
  function WriteSigned16(x: Int16): (r: Bytes)
    ensures |r| == 2
  {
    WriteUnsigned16(if x < 0 then x + 65536 else x)
  }

  function ReadSigned16(high: Byte, low: Byte): Int16 {
    var x := ReadUnsigned16(high, low);
    if x >= 32768 then x - 65536 else x
  }

  lemma SignedRoundTrip(x: Int16)
    ensures ReadSigned16(WriteSigned16(x)[0], WriteSigned16(x)[1]) == x
  {
  }

  lemma SignedIsInjective(a: Byte, b: Byte, c: Byte, e: Byte)
    requires ReadSigned16(a, b) == ReadSigned16(c, e)
    ensures a == c && b == e
  {
  }

  lemma UnsignedRoundTrip(x: int)
    requires 0 <= x <= 65535
    ensures ReadUnsigned16(WriteUnsigned16(x)[0], WriteUnsigned16(x)[1]) == x
  {
  }

  // ---------------------------------------------------------------- the layout

  function HeaderBytes(d: Doubles, h: Header): (r: Bytes)
    requires 0 <= h.width <= SIDE_LIMIT && 0 <= h.height <= SIDE_LIMIT
    ensures |r| == HEADER_SIZE
  {
    MAGIC + [VERSION, FLAGS] + WriteUnsigned16(h.width) + WriteUnsigned16(h.height)
    + (d.write(h.scaleU) + d.write(h.offsetU)) + (d.write(h.scaleV) + d.write(h.offsetV))
  }

  /** The four bytes of one sample. */
  function SampleBytes(u: Int16, v: Int16): (r: Bytes)
    ensures |r| == SAMPLE_SIZE
  {
    WriteSigned16(u) + WriteSigned16(v)
  }

  /** The sample that byte k of the body belongs to. */
  function SampleIndex(k: nat): (i: nat)
    ensures SAMPLE_SIZE * i <= k < SAMPLE_SIZE * i + SAMPLE_SIZE
  {
    k / SAMPLE_SIZE
  }

  /** Byte k of the interleaved samples. */
  function BodyByte(us: seq<Int16>, vs: seq<Int16>, k: nat): Byte
    requires |us| == |vs| && k < SAMPLE_SIZE * |us|
  {
    var i := SampleIndex(k);
    SampleBytes(us[i], vs[i])[k - SAMPLE_SIZE * i]
  }

  function Body(us: seq<Int16>, vs: seq<Int16>): (r: Bytes)
    requires |us| == |vs|
    ensures |r| == SAMPLE_SIZE * |us|
  {
    seq(SAMPLE_SIZE * |us|, k requires 0 <= k < SAMPLE_SIZE * |us| => BodyByte(us, vs, k))
  }

  // ---------------------------------------------------------------- encoding

  /** Why the components cannot make a tile of these dimensions; the first check that fails. */
  function EncodeFault(d: Doubles, u: seq<real>, v: seq<real>, width: int, height: int): Option<TileError> {
    if width <= 0 || height <= 0 then Some(NonPositiveDimensions)
    else if width > SIDE_LIMIT || height > SIDE_LIMIT then Some(DimensionsTooLarge)
    else if |u| != |v| then Some(ComponentLengthsDiffer)
    else if |u| != width * height then Some(SampleCountMismatch)
    else if !AllFinite(d.largest, u) || !AllFinite(d.largest, v) then Some(NonFiniteComponent)
    else None
  }

  lemma Area(width: int, height: int)
    requires width > 0 && height > 0
    ensures width * height > 0
  {
  }

  function Encode(d: Doubles, u: seq<real>, v: seq<real>, width: int, height: int): Result<Bytes, TileError> {
    match EncodeFault(d, u, v, width, height)
    case Some(fault) => Err(fault)
    case None =>
      Area(width, height);
      match Quantize(d.largest, u)
      case Err(e) => Err(Unquantizable(e))
      case Ok(qu) =>
        QuantizeIsFaithful(d.largest, u);
        match Quantize(d.largest, v)
        case Err(e) => Err(Unquantizable(e))
        case Ok(qv) =>
          QuantizeIsFaithful(d.largest, v);
          Ok(HeaderBytes(d, Header(width, height, qu.scale, qu.offset, qv.scale, qv.offset))
             + Body(qu.samples, qv.samples))
  }

  lemma BodyByteAt(us: seq<Int16>, vs: seq<Int16>, i: nat, j: nat)
    requires |us| == |vs| && i < |us| && j < SAMPLE_SIZE
    ensures BodyByte(us, vs, SAMPLE_SIZE * i + j) == SampleBytes(us[i], vs[i])[j]
  {
    assert SampleIndex(SAMPLE_SIZE * i + j) == i;
  }

  lemma BodyBytesAt(us: seq<Int16>, vs: seq<Int16>, i: nat, start: nat)
    requires |us| == |vs| && i < |us| && start == SAMPLE_SIZE * i
    ensures Body(us, vs)[start..start + SAMPLE_SIZE] == SampleBytes(us[i], vs[i])
  {
    BodyByteAt(us, vs, i, 0);
    BodyByteAt(us, vs, i, 1);
    BodyByteAt(us, vs, i, 2);
    BodyByteAt(us, vs, i, 3);
  }

  /** Writes the four bytes of one sample. */
  method PutSample(body: array<Byte>, start: nat, u: Int16, v: Int16)
    requires start + SAMPLE_SIZE <= body.Length
    modifies body
    ensures body[..] == old(body[..start]) + SampleBytes(u, v) + old(body[start + SAMPLE_SIZE..])
  {
    var sample := SampleBytes(u, v);
    body[start], body[start + 1], body[start + 2], body[start + 3] := sample[0], sample[1], sample[2], sample[3];
  }

  /** Packs the samples into a buffer, four bytes at a time. */
  method PackSamples(us: seq<Int16>, vs: seq<Int16>) returns (body: array<Byte>)
    requires |us| == |vs|
    ensures fresh(body) && body[..] == Body(us, vs)
  {
    body := new Byte[SAMPLE_SIZE * |us|];
    ghost var packed := Body(us, vs);
    for index := 0 to |us|
      invariant body[..SAMPLE_SIZE * index] == packed[..SAMPLE_SIZE * index]
    {
      var start := SAMPLE_SIZE * index;
      PutSample(body, start, us[index], vs[index]);
      BodyBytesAt(us, vs, index, start);
      assert body[..start + SAMPLE_SIZE] == packed[..start] + packed[start..start + SAMPLE_SIZE];
    }
  }

  method EncodeVectorTile(d: Doubles, u: seq<real>, v: seq<real>, width: int, height: int)
    returns (r: Result<Bytes, TileError>)
    ensures r == Encode(d, u, v, width, height)
  {
    var fault := EncodeFault(d, u, v, width, height);
    if fault.Some? {
      return Err(fault.value);
    }
    Area(width, height);
    QuantizeIsFaithful(d.largest, u);
    QuantizeIsFaithful(d.largest, v);
    var qu := Quantize(d.largest, u).value;
    var qv := Quantize(d.largest, v).value;
    var header := HeaderBytes(d, Header(width, height, qu.scale, qu.offset, qv.scale, qv.offset));
    var body := PackSamples(qu.samples, qv.samples);
    r := Ok(header + body[..]);
  }

  // ---------------------------------------------------------------- decoding

  function WordAt(payload: Bytes, at: nat): Word64
    requires at + 8 <= |payload|
  {
    payload[at..at + 8]
  }

  function SignedAt(payload: Bytes, at: nat): Int16
    requires at + 2 <= |payload|
  {
    ReadSigned16(payload[at], payload[at + 1])
  }

  function ReadHeader(d: Doubles, payload: Bytes): Option<Header>
    requires |payload| >= HEADER_SIZE
  {
    match d.read(WordAt(payload, 10))
    case None => None
    case Some(scaleU) =>
      match d.read(WordAt(payload, 18))
      case None => None
      case Some(offsetU) =>
        match d.read(WordAt(payload, 26))
        case None => None
        case Some(scaleV) =>
          match d.read(WordAt(payload, 34))
          case None => None
          case Some(offsetV) =>
            Some(Header(
              ReadUnsigned16(payload[6], payload[7]), ReadUnsigned16(payload[8], payload[9]),
              scaleU, offsetU, scaleV, offsetV))
  }

  /** The header of a payload that passes every check made before its samples are read. */
  function CheckHeader(d: Doubles, payload: Bytes): (r: Result<Header, TileError>)
    ensures r.Ok? ==> r.value.width > 0 && r.value.height > 0
    ensures r.Ok? ==> |payload| == HEADER_SIZE + SAMPLE_SIZE * (r.value.width * r.value.height)
  {
    if |payload| < HEADER_SIZE then Err(ShorterThanHeader)
    else if payload[..4] != MAGIC then Err(InvalidMagic)
    else if payload[4] != VERSION then Err(UnsupportedVersion(payload[4]))
    else if payload[5] != FLAGS then Err(UnsupportedFlags)
    else if ReadUnsigned16(payload[6], payload[7]) <= 0 || ReadUnsigned16(payload[8], payload[9]) <= 0 then
      Err(NonPositiveDimensions)
    else
      match ReadHeader(d, payload)
      case None => Err(NonFiniteMetadata)
      case Some(h) =>
        if h.scaleU <= 0.0 || h.scaleV <= 0.0 then Err(NonPositiveScale)
        else if |payload| != HEADER_SIZE + SAMPLE_SIZE * (h.width * h.height) then Err(LengthMismatch)
        else Ok(h)
  }

  /** Every other 16-bit word of the body, from byte `start` on. */
  function Plane(payload: Bytes, start: nat, count: nat): (r: seq<Int16>)
    requires start + SAMPLE_SIZE * count <= |payload| + 2
    ensures |r| == count
  {
    seq(count, i requires 0 <= i < count => SignedAt(payload, start + SAMPLE_SIZE * i))
  }

  /** The u and the v component of the body, if every sample of both is finite. */
  function DecodeSamples(d: Doubles, payload: Bytes, h: Header, count: nat): Option<(seq<real>, seq<real>)>
    requires |payload| == HEADER_SIZE + SAMPLE_SIZE * count
  {
    var u := Values(Plane(payload, HEADER_SIZE, count), h.scaleU, h.offsetU);
    var v := Values(Plane(payload, HEADER_SIZE + 2, count), h.scaleV, h.offsetV);
    if AllFinite(d.largest, u) && AllFinite(d.largest, v) then Some((u, v)) else None
  }

  function Decode(d: Doubles, payload: Bytes): Result<Tile, TileError> {
    match CheckHeader(d, payload)
    case Err(e) => Err(e)
    case Ok(h) =>
      Area(h.width, h.height);
      match DecodeSamples(d, payload, h, h.width * h.height)
      case None => Err(NonFiniteSamples)
      case Some(components) => Ok(Tile(h, components.0, components.1))
  }

  method ReadSamples(d: Doubles, payload: Bytes, h: Header, count: nat)
    returns (r: Option<(seq<real>, seq<real>)>)
    requires |payload| == HEADER_SIZE + SAMPLE_SIZE * count
    ensures r == DecodeSamples(d, payload, h, count)
  {
    ghost var us := Values(Plane(payload, HEADER_SIZE, count), h.scaleU, h.offsetU);
    ghost var vs := Values(Plane(payload, HEADER_SIZE + 2, count), h.scaleV, h.offsetV);
    var decodedU: seq<real> := [];
    var decodedV: seq<real> := [];
    for index := 0 to count
      invariant decodedU == us[..index] && decodedV == vs[..index]
      invariant AllFinite(d.largest, decodedU) && AllFinite(d.largest, decodedV)
    {
      var start := HEADER_SIZE + SAMPLE_SIZE * index;
      var u := Value(SignedAt(payload, start), h.scaleU, h.offsetU);
      var v := Value(SignedAt(payload, start + 2), h.scaleV, h.offsetV);
      assert u == us[index] && v == vs[index];
      assert u in us && v in vs;
      if !Finite(d.largest, u) || !Finite(d.largest, v) {
        return None;
      }
      decodedU := decodedU + [u];
      decodedV := decodedV + [v];
    }
    assert us[..count] == us && vs[..count] == vs;
    r := Some((decodedU, decodedV));
  }

  method DecodeVectorTile(d: Doubles, payload: Bytes) returns (r: Result<Tile, TileError>)
    ensures r == Decode(d, payload)
  {
    var checked := CheckHeader(d, payload);
    if checked.Err? {
      return Err(checked.error);
    }
    var h := checked.value;
    Area(h.width, h.height);
    var components := ReadSamples(d, payload, h, h.width * h.height);
    if components.None? {
      return Err(NonFiniteSamples);
    }
    r := Ok(Tile(h, components.value.0, components.value.1));
  }

  // ---------------------------------------------------------------- round trip

  /** Where the parts of an encoded tile lie. */
  lemma HeaderLayout(d: Doubles, h: Header, body: Bytes)
    requires 0 <= h.width <= SIDE_LIMIT && 0 <= h.height <= SIDE_LIMIT
    ensures var p := HeaderBytes(d, h) + body;
      && p[..4] == MAGIC && p[4] == VERSION && p[5] == FLAGS
      && ReadUnsigned16(p[6], p[7]) == h.width && ReadUnsigned16(p[8], p[9]) == h.height
      && WordAt(p, 10) == d.write(h.scaleU) && WordAt(p, 18) == d.write(h.offsetU)
      && WordAt(p, 26) == d.write(h.scaleV) && WordAt(p, 34) == d.write(h.offsetV)
      && p[HEADER_SIZE..] == body
  {
    UnsignedRoundTrip(h.width);
    UnsignedRoundTrip(h.height);
  }

  /** A header as it is read from the words it was written as. */
  function Reread(d: Doubles, h: Header): Option<Header> {
    match (d.read(d.write(h.scaleU)), d.read(d.write(h.offsetU)), d.read(d.write(h.scaleV)), d.read(d.write(h.offsetV)))
    case (Some(scaleU), Some(offsetU), Some(scaleV), Some(offsetV)) =>
      Some(Header(h.width, h.height, scaleU, offsetU, scaleV, offsetV))
    case _ => None
  }

  function CheckReread(d: Doubles, h: Header): Result<Header, TileError> {
    match Reread(d, h)
    case None => Err(NonFiniteMetadata)
    case Some(r) => if r.scaleU <= 0.0 || r.scaleV <= 0.0 then Err(NonPositiveScale) else Ok(r)
  }

  lemma HeaderRoundTrip(d: Doubles, h: Header, body: Bytes)
    requires 0 < h.width <= SIDE_LIMIT && 0 < h.height <= SIDE_LIMIT
    requires |body| == SAMPLE_SIZE * (h.width * h.height)
    ensures CheckHeader(d, HeaderBytes(d, h) + body) == CheckReread(d, h)
  {
    HeaderLayout(d, h, body);
  }

  lemma PayloadByte(us: seq<Int16>, vs: seq<Int16>, payload: Bytes, i: nat, j: nat)
    requires |us| == |vs| && i < |us| && j < SAMPLE_SIZE && |payload| == HEADER_SIZE + SAMPLE_SIZE * |us|
    requires payload[HEADER_SIZE..] == Body(us, vs)
    ensures payload[HEADER_SIZE + SAMPLE_SIZE * i + j] == SampleBytes(us[i], vs[i])[j]
  {
    assert payload[HEADER_SIZE + SAMPLE_SIZE * i + j] == payload[HEADER_SIZE..][SAMPLE_SIZE * i + j];
    BodyByteAt(us, vs, i, j);
  }

  lemma SampleReads(us: seq<Int16>, vs: seq<Int16>, payload: Bytes, i: nat)
    requires |us| == |vs| && i < |us| && |payload| == HEADER_SIZE + SAMPLE_SIZE * |us|
    requires payload[HEADER_SIZE..] == Body(us, vs)
    ensures SignedAt(payload, HEADER_SIZE + SAMPLE_SIZE * i) == us[i]
    ensures SignedAt(payload, HEADER_SIZE + 2 + SAMPLE_SIZE * i) == vs[i]
  {
    PayloadByte(us, vs, payload, i, 0);
    PayloadByte(us, vs, payload, i, 1);
    PayloadByte(us, vs, payload, i, 2);
    PayloadByte(us, vs, payload, i, 3);
    SignedRoundTrip(us[i]);
    SignedRoundTrip(vs[i]);
  }

  lemma PlaneReads(us: seq<Int16>, vs: seq<Int16>, payload: Bytes, i: nat)
    requires |us| == |vs| && i < |us| && |payload| == HEADER_SIZE + SAMPLE_SIZE * |us|
    requires payload[HEADER_SIZE..] == Body(us, vs)
    ensures Plane(payload, HEADER_SIZE, |us|)[i] == us[i] && Plane(payload, HEADER_SIZE + 2, |us|)[i] == vs[i]
  {
    SampleReads(us, vs, payload, i);
  }

  lemma PlanesRead(us: seq<Int16>, vs: seq<Int16>, payload: Bytes)
    requires |us| == |vs| && |payload| == HEADER_SIZE + SAMPLE_SIZE * |us|
    requires payload[HEADER_SIZE..] == Body(us, vs)
    ensures Plane(payload, HEADER_SIZE, |us|) == us && Plane(payload, HEADER_SIZE + 2, |us|) == vs
  {
    forall i | 0 <= i < |us|
      ensures Plane(payload, HEADER_SIZE, |us|)[i] == us[i] && Plane(payload, HEADER_SIZE + 2, |us|)[i] == vs[i]
    {
      PlaneReads(us, vs, payload, i);
    }
  }

  /** An encoded tile seen from the two quantised components it was made of. */
  lemma EncodedForm(d: Doubles, u: seq<real>, v: seq<real>, width: int, height: int, payload: Bytes)
    returns (qu: Quantized, qv: Quantized, h: Header)
    requires Encode(d, u, v, width, height) == Ok(payload)
    ensures u != [] && v != [] && |u| == |v| == width * height
    ensures 0 < width <= SIDE_LIMIT && 0 < height <= SIDE_LIMIT
    ensures AllFinite(d.largest, u) && AllFinite(d.largest, v)
    ensures Quantize(d.largest, u) == Ok(qu) && Quantize(d.largest, v) == Ok(qv)
    ensures Faithful(u, qu) && Faithful(v, qv)
    ensures h == Header(width, height, qu.scale, qu.offset, qv.scale, qv.offset)
    ensures payload == HeaderBytes(d, h) + Body(qu.samples, qv.samples)
  {
    Area(width, height);
    QuantizeIsFaithful(d.largest, u);
    QuantizeIsFaithful(d.largest, v);
    qu := Quantize(d.largest, u).value;
    qv := Quantize(d.largest, v).value;
    h := Header(width, height, qu.scale, qu.offset, qv.scale, qv.offset);
  }

  /** Components of valid dimensions with finite samples are always encoded, and nothing else is. */
  lemma EncodeSucceedsIff(d: Doubles, u: seq<real>, v: seq<real>, width: int, height: int)
    ensures Encode(d, u, v, width, height).Ok? <==>
      && 0 < width <= 65535 && 0 < height <= 65535 && |u| == |v| == width * height
      && (forall x | x in u || x in v :: -d.largest <= x <= d.largest)
  {
    assert AllFinite(d.largest, u) && AllFinite(d.largest, v)
           <==> forall x | x in u || x in v :: -d.largest <= x <= d.largest;
    if EncodeFault(d, u, v, width, height).None? {
      Area(width, height);
      QuantizeIsFaithful(d.largest, u);
      QuantizeIsFaithful(d.largest, v);
    }
  }

  /** A refused tile names the first check that fails; quantising never does. */
  lemma EncodeNamesFirstFault(d: Doubles, u: seq<real>, v: seq<real>, width: int, height: int)
    ensures var r := Encode(d, u, v, width, height);
      var positive := width > 0 && height > 0;
      var small := width <= 65535 && height <= 65535;
      && (r == Err(NonPositiveDimensions) <==> !positive)
      && (r == Err(DimensionsTooLarge) <==> positive && !small)
      && (r == Err(ComponentLengthsDiffer) <==> positive && small && |u| != |v|)
      && (r == Err(SampleCountMismatch) <==> positive && small && |u| == |v| != width * height)
      && (r == Err(NonFiniteComponent) <==>
            positive && small && |u| == |v| == width * height
            && exists x | x in u || x in v :: !(-d.largest <= x <= d.largest))
      && (r.Err? ==> !r.error.Unquantizable?)
  {
    assert AllFinite(d.largest, u) && AllFinite(d.largest, v)
           <==> forall x | x in u || x in v :: -d.largest <= x <= d.largest;
    if EncodeFault(d, u, v, width, height).None? {
      EncodeSucceedsIff(d, u, v, width, height);
    }
  }

  /** So does a refused payload. */
  lemma DecodeNamesFirstFault(d: Doubles, p: Bytes)
    ensures var r := Decode(d, p);
      && (r == Err(ShorterThanHeader) <==> |p| < 42)
      && (|p| >= 42 ==>
            var named := p[..4] == [0x57, 0x56, 0x45, 0x43];
            var known := named && p[4] == 1 && p[5] == 0;
            var sized := known && 256 * p[6] as int + p[7] as int > 0 && 256 * p[8] as int + p[9] as int > 0;
            var finite := sized
              && d.read(p[10..18]).Some? && d.read(p[18..26]).Some?
              && d.read(p[26..34]).Some? && d.read(p[34..42]).Some?;
            && (r == Err(InvalidMagic) <==> !named)
            && (r == Err(UnsupportedVersion(p[4])) <==> named && p[4] != 1)
            && (r == Err(UnsupportedFlags) <==> named && p[4] == 1 && p[5] != 0)
            && (r == Err(NonPositiveDimensions) <==> known && !sized)
            && (r == Err(NonFiniteMetadata) <==> sized && !finite)
            && (r == Err(NonPositiveScale) <==>
                  finite && (d.read(p[10..18]).value <= 0.0 || d.read(p[26..34]).value <= 0.0))
            && (r == Err(LengthMismatch) <==>
                  finite && d.read(p[10..18]).value > 0.0 && d.read(p[26..34]).value > 0.0
                  && |p| != 42 + 4 * ((256 * p[6] as int + p[7] as int) * (256 * p[8] as int + p[9] as int)))
            && (r == Err(NonFiniteSamples) <==> HeaderPasses(d, p) && r.Err?))
  {
    CheckHeaderIff(d, p);
  }

  // ---------------------------------------------------------------- the bytes in numbers

  /** The number a component is written with as its scale. */
  function ScaleOf(values: seq<real>): real
    requires values != []
  {
    if Minimum(values) == Maximum(values) then 1.0 else (Maximum(values) - Minimum(values)) / 65534.0
  }

  /** And as its offset. */
  function OffsetOf(values: seq<real>): real
    requires values != []
  {
    (Minimum(values) + Maximum(values)) / 2.0
  }

  /**
    A level of a component: the value it stands for is within that part of the range, the ends
    are -32767 and 32767, and a constant component has level 0 alone.
  */
  ghost predicate IsLevelOf(values: seq<real>, value: real, level: int)
    requires values != []
  {
    var low, high := Minimum(values), Maximum(values);
    && Abs(Value(level, ScaleOf(values), OffsetOf(values)) - value) <= (high - low) / 131068.0
    && (low == high ==> level == 0)
    && (low != high && value == low ==> level == -32767)
    && (low != high && value == high ==> level == 32767)
  }

  ghost predicate AreLevelsOf(values: seq<real>, levels: seq<Int16>)
    requires values != []
  {
    |levels| == |values| && forall i | 0 <= i < |values| :: IsLevelOf(values, values[i], levels[i])
  }

  lemma WrittenMetadata(values: seq<real>, q: Quantized)
    requires values != [] && |q.samples| == |values| && Calibrated(values, q)
    ensures q.scale == ScaleOf(values) && q.offset == OffsetOf(values)
  {
  }

  lemma NearIsLevel(values: seq<real>, value: real, level: int, scale: real, offset: real)
    requires values != [] && scale == ScaleOf(values) && offset == OffsetOf(values)
    requires Abs(Value(level, scale, offset) - value) <= (Maximum(values) - Minimum(values)) / 131068.0
    requires Minimum(values) == Maximum(values) ==> level == 0
    requires Minimum(values) != Maximum(values) && value == Minimum(values) ==> level == -32767
    requires Minimum(values) != Maximum(values) && value == Maximum(values) ==> level == 32767
    ensures IsLevelOf(values, value, level)
  {
  }

  lemma QuantizedLevels(largest: real, values: seq<real>, q: Quantized)
    requires values != [] && AllFinite(largest, values) && Quantize(largest, values) == Ok(q)
    ensures q.scale == ScaleOf(values) && q.offset == OffsetOf(values) && AreLevelsOf(values, q.samples)
  {
    Resolution(largest, values, q);
    WrittenMetadata(values, q);
    forall i | 0 <= i < |values|
      ensures IsLevelOf(values, values[i], q.samples[i])
    {
      NearIsLevel(values, values[i], q.samples[i], q.scale, q.offset);
    }
  }

  /** An encoded tile as a header and the levels of two components. */
  lemma EncodedParts(d: Doubles, u: seq<real>, v: seq<real>, width: int, height: int, payload: Bytes)
    returns (h: Header, us: seq<Int16>, vs: seq<Int16>)
    requires Encode(d, u, v, width, height) == Ok(payload)
    ensures u != [] && v != [] && |u| == |v| == width * height == |us| == |vs|
    ensures h == Header(width, height, ScaleOf(u), OffsetOf(u), ScaleOf(v), OffsetOf(v))
    ensures 0 < width <= SIDE_LIMIT && 0 < height <= SIDE_LIMIT
    ensures payload == HeaderBytes(d, h) + Body(us, vs)
    ensures AreLevelsOf(u, us) && AreLevelsOf(v, vs)
  {
    var qu, qv, sent := EncodedForm(d, u, v, width, height, payload);
    QuantizedLevels(d.largest, u, qu);
    QuantizedLevels(d.largest, v, qv);
    h, us, vs := sent, qu.samples, qv.samples;
  }

  /** The first 42 bytes of a tile: magic, version 1, flags 0, dimensions, and the metadata of its components. */
  lemma EncodedHeader(d: Doubles, u: seq<real>, v: seq<real>, width: int, height: int, payload: Bytes)
    requires Encode(d, u, v, width, height) == Ok(payload)
    ensures u != [] && v != [] && |u| == |v| == width * height && |payload| == 42 + 4 * |u|
    ensures payload[..6] == [0x57, 0x56, 0x45, 0x43, 1, 0]
    ensures 256 * payload[6] as int + payload[7] as int == width
    ensures 256 * payload[8] as int + payload[9] as int == height
    ensures payload[10..18] == d.write(ScaleOf(u)) && payload[18..26] == d.write(OffsetOf(u))
    ensures payload[26..34] == d.write(ScaleOf(v)) && payload[34..42] == d.write(OffsetOf(v))
  {
    var h, us, vs := EncodedParts(d, u, v, width, height, payload);
    HeaderLayout(d, h, Body(us, vs));
    assert payload[..6] == payload[..4] + [payload[4], payload[5]];
  }

  /** The number that two bytes spell in big-endian two's complement. */
  function Spelled(high: Byte, low: Byte): int {
    256 * high as int + low as int - if high >= 0x80 then 65536 else 0
  }

  /** The two bytes at a place spell the level of a component's sample; its ends are 80 01 and 7F FF. */
  ghost predicate SampleWritten(values: seq<real>, i: nat, payload: Bytes, at: nat)
    requires values != [] && i < |values| && at + 2 <= |payload|
  {
    var low, high := Minimum(values), Maximum(values);
    && IsLevelOf(values, values[i], Spelled(payload[at], payload[at + 1]))
    && (low != high && values[i] == low ==> payload[at..at + 2] == [0x80, 0x01])
    && (low != high && values[i] == high ==> payload[at..at + 2] == [0x7F, 0xFF])
  }

  lemma SpelledAt(payload: Bytes, at: nat)
    requires at + 2 <= |payload|
    ensures SignedAt(payload, at) == Spelled(payload[at], payload[at + 1])
    ensures Spelled(payload[at], payload[at + 1]) == -32767 ==> payload[at..at + 2] == [0x80, 0x01]
    ensures Spelled(payload[at], payload[at + 1]) == 32767 ==> payload[at..at + 2] == [0x7F, 0xFF]
  {
  }

  lemma LevelsAreWritten(
      u: seq<real>, v: seq<real>, us: seq<Int16>, vs: seq<Int16>, payload: Bytes, i: nat)
    requires u != [] && v != [] && AreLevelsOf(u, us) && AreLevelsOf(v, vs) && |u| == |v| && i < |u|
    requires |payload| == 42 + 4 * |u| && payload[42..] == Body(us, vs)
    ensures SampleWritten(u, i, payload, 42 + 4 * i) && SampleWritten(v, i, payload, 44 + 4 * i)
  {
    SampleReads(us, vs, payload, i);
    SpelledAt(payload, 42 + 4 * i);
    SpelledAt(payload, 44 + 4 * i);
    assert IsLevelOf(u, u[i], us[i]) && IsLevelOf(v, v[i], vs[i]);
  }

  /** Sample i starts at byte 42 + 4 i, u before v. */
  lemma EncodedSamples(d: Doubles, u: seq<real>, v: seq<real>, width: int, height: int, payload: Bytes, i: nat)
    requires Encode(d, u, v, width, height) == Ok(payload) && i < |u|
    ensures |u| == |v| && |payload| == 42 + 4 * |u|
    ensures SampleWritten(u, i, payload, 42 + 4 * i) && SampleWritten(v, i, payload, 44 + 4 * i)
  {
    var h, us, vs := EncodedParts(d, u, v, width, height, payload);
    HeaderLayout(d, h, Body(us, vs));
    LevelsAreWritten(u, v, us, vs, payload, i);
  }

  /** What a receiver makes of a sent header and the levels sent with it. */
  function Restored(d: Doubles, sent: Header, us: seq<Int16>, vs: seq<Int16>): Result<Tile, TileError> {
    match CheckReread(d, sent)
    case Err(e) => Err(e)
    case Ok(h) =>
      var u, v := Values(us, h.scaleU, h.offsetU), Values(vs, h.scaleV, h.offsetV);
      if AllFinite(d.largest, u) && AllFinite(d.largest, v) then Ok(Tile(h, u, v)) else Err(NonFiniteSamples)
  }

  /**
    Decoding an encoded tile reads back its dimensions and every level of both components; only
    scale and offset pass through the codec, and only they can make the tile unreadable.
  */
  lemma RoundTrip(d: Doubles, u: seq<real>, v: seq<real>, width: int, height: int, payload: Bytes)
    returns (qu: Quantized, qv: Quantized, sent: Header)
    requires Encode(d, u, v, width, height) == Ok(payload)
    ensures sent == Header(width, height, qu.scale, qu.offset, qv.scale, qv.offset)
    ensures u != [] && Quantize(d.largest, u) == Ok(qu) && Faithful(u, qu)
    ensures v != [] && Quantize(d.largest, v) == Ok(qv) && Faithful(v, qv)
    ensures Decode(d, payload) == Restored(d, sent, qu.samples, qv.samples)
  {
    qu, qv, sent := EncodedForm(d, u, v, width, height, payload);
    HeaderRoundTrip(d, sent, Body(qu.samples, qv.samples));
    HeaderLayout(d, sent, Body(qu.samples, qv.samples));
    PlanesRead(qu.samples, qv.samples, payload);
  }

  /**
    Whatever is decoded has the dimensions that were encoded, keeps the order of samples, and is
    within half a step and what rounding the metadata adds.
  */
  lemma DecodedWithin(d: Doubles, u: seq<real>, v: seq<real>, width: int, height: int, payload: Bytes, tile: Tile)
    returns (qu: Quantized, qv: Quantized)
    requires Encode(d, u, v, width, height) == Ok(payload) && Decode(d, payload) == Ok(tile)
    ensures tile.header.width == width && tile.header.height == height
    ensures u != [] && Quantize(d.largest, u) == Ok(qu)
    ensures v != [] && Quantize(d.largest, v) == Ok(qv)
    ensures FaithfulWithin(u, qu, tile.u, tile.header.scaleU, tile.header.offsetU)
    ensures FaithfulWithin(v, qv, tile.v, tile.header.scaleV, tile.header.offsetV)
  {
    var sent;
    qu, qv, sent := RoundTrip(d, u, v, width, height, payload);
    RoundedIsFaithful(u, qu, tile.header.scaleU, tile.header.offsetU);
    RoundedIsFaithful(v, qv, tile.header.scaleV, tile.header.offsetV);
  }

  lemma ComponentWithinPart(largest: real, values: seq<real>, q: Quantized, scale: real, offset: real)
    requires values != [] && AllFinite(largest, values) && Quantize(largest, values) == Ok(q) && scale > 0.0
    ensures WithinPart(values, Values(q.samples, scale, offset), (Maximum(values) - Minimum(values)) / 131068.0,
                       32767.0 * Abs(scale - ScaleOf(values)) + Abs(offset - OffsetOf(values)))
  {
    QuantizeIsFaithful(largest, values);
    Resolution(largest, values, q);
    WrittenMetadata(values, q);
    RestoredWithinPart(values, q, scale, offset,
                       32767.0 * Abs(scale - ScaleOf(values)) + Abs(offset - OffsetOf(values)));
  }

  /** In numbers: half of a step that 65534 of span the range, and what rounding the metadata adds. */
  lemma DecodedWithinPart(d: Doubles, u: seq<real>, v: seq<real>, width: int, height: int, payload: Bytes, tile: Tile)
    requires Encode(d, u, v, width, height) == Ok(payload) && Decode(d, payload) == Ok(tile)
    ensures u != [] && v != []
    ensures WithinPart(
      u, tile.u, (Maximum(u) - Minimum(u)) / 131068.0,
      32767.0 * Abs(tile.header.scaleU - ScaleOf(u)) + Abs(tile.header.offsetU - OffsetOf(u)))
    ensures WithinPart(
      v, tile.v, (Maximum(v) - Minimum(v)) / 131068.0,
      32767.0 * Abs(tile.header.scaleV - ScaleOf(v)) + Abs(tile.header.offsetV - OffsetOf(v)))
  {
    var qu, qv, sent := RoundTrip(d, u, v, width, height, payload);
    EncodeSucceedsIff(d, u, v, width, height);
    ComponentWithinPart(d.largest, u, qu, tile.header.scaleU, tile.header.offsetU);
    ComponentWithinPart(d.largest, v, qv, tile.header.scaleV, tile.header.offsetV);
  }

  /** The scale and offset of a component are held without rounding. */
  predicate ExactMetadata(d: Doubles, values: seq<real>) {
    values != [] &&
    match Quantize(d.largest, values)
    case Err(_) => false
    case Ok(q) => Exact(d, q.scale) && Exact(d, q.offset)
  }

  /** Unrounded metadata give a tile within half a step of the original, with exact extremes. */
  lemma ExactRoundTrip(d: Doubles, u: seq<real>, v: seq<real>, width: int, height: int, payload: Bytes)
    returns (qu: Quantized, qv: Quantized, tile: Tile)
    requires Encode(d, u, v, width, height) == Ok(payload) && ExactMetadata(d, u) && ExactMetadata(d, v)
    ensures Decode(d, payload) == Ok(tile)
    ensures tile.header == Header(width, height, qu.scale, qu.offset, qv.scale, qv.offset)
    ensures Quantize(d.largest, u) == Ok(qu) && tile.u == Dequantize(qu) && Faithful(u, qu)
    ensures Quantize(d.largest, v) == Ok(qv) && tile.v == Dequantize(qv) && Faithful(v, qv)
    ensures WithinPart(u, tile.u, (Maximum(u) - Minimum(u)) / 131068.0, 0.0)
    ensures WithinPart(v, tile.v, (Maximum(v) - Minimum(v)) / 131068.0, 0.0)
  {
    var sent;
    qu, qv, sent := RoundTrip(d, u, v, width, height, payload);
    EncodeSucceedsIff(d, u, v, width, height);
    RequantizeIsSame(d.largest, u, qu);
    RequantizeIsSame(d.largest, v, qv);
    tile := Tile(sent, Dequantize(qu), Dequantize(qv));
    DequantizedWithinPart(d.largest, u, qu);
    DequantizedWithinPart(d.largest, v, qv);
  }

  lemma DequantizedWithinPart(largest: real, values: seq<real>, q: Quantized)
    requires values != [] && AllFinite(largest, values) && Quantize(largest, values) == Ok(q)
    ensures WithinPart(values, Dequantize(q), (Maximum(values) - Minimum(values)) / 131068.0, 0.0)
  {
    Resolution(largest, values, q);
    forall i | 0 <= i < |values|
      ensures Abs(Dequantize(q)[i] - values[i]) <= (Maximum(values) - Minimum(values)) / 131068.0 + 0.0
    {
      RestoredAt(q, i);
    }
  }

  // ---------------------------------------------------------------- canonicity

  /** The words of a component's scale and offset survive being read and written again. */
  predicate StableMetadata(d: Doubles, values: seq<real>) {
    values != [] &&
    match Quantize(d.largest, values)
    case Err(_) => false
    case Ok(q) => Stable(d, q.offset) && (Minimum(values) == Maximum(values) || Stable(d, q.scale))
  }

  lemma SameWords(d: Doubles, g: Header, h: Header, body: Bytes)
    requires 0 <= g.width == h.width <= SIDE_LIMIT && 0 <= g.height == h.height <= SIDE_LIMIT
    ensures HeaderBytes(d, g) + body == HeaderBytes(d, h) + body <==>
      && d.write(g.scaleU) == d.write(h.scaleU) && d.write(g.offsetU) == d.write(h.offsetU)
      && d.write(g.scaleV) == d.write(h.scaleV) && d.write(g.offsetV) == d.write(h.offsetV)
  {
    HeaderLayout(d, g, body);
    HeaderLayout(d, h, body);
  }

  lemma ComponentIsStable(d: Doubles, values: seq<real>, q: Quantized, scale: real, offset: real)
    requires values != [] && Quantize(d.largest, values) == Ok(q)
    requires d.read(d.write(q.scale)) == Some(scale) && d.read(d.write(q.offset)) == Some(offset)
    ensures StableMetadata(d, values) <==>
      && d.write(if Minimum(values) == Maximum(values) then 1.0 else scale) == d.write(q.scale)
      && d.write(offset) == d.write(q.offset)
  {
  }

  /** The header under which a decoded tile is encoded again. */
  function Resent(h: Header, flatU: bool, flatV: bool): Header {
    h.(scaleU := if flatU then 1.0 else h.scaleU, scaleV := if flatV then 1.0 else h.scaleV)
  }

  lemma ResentIsSameIff(
      d: Doubles, u: seq<real>, v: seq<real>, qu: Quantized, qv: Quantized, sent: Header, h: Header, body: Bytes)
    requires u != [] && Quantize(d.largest, u) == Ok(qu) && v != [] && Quantize(d.largest, v) == Ok(qv)
    requires 0 < sent.width <= SIDE_LIMIT && 0 < sent.height <= SIDE_LIMIT
    requires sent == Header(sent.width, sent.height, qu.scale, qu.offset, qv.scale, qv.offset)
    requires Reread(d, sent) == Some(h)
    ensures var again := Resent(h, Minimum(u) == Maximum(u), Minimum(v) == Maximum(v));
      HeaderBytes(d, again) + body == HeaderBytes(d, sent) + body <==> StableMetadata(d, u) && StableMetadata(d, v)
  {
    ComponentIsStable(d, u, qu, h.scaleU, h.offsetU);
    ComponentIsStable(d, v, qv, h.scaleV, h.offsetV);
    SameWords(d, Resent(h, Minimum(u) == Maximum(u), Minimum(v) == Maximum(v)), sent, body);
  }

  /** What encoding gives for components restored under a header. */
  lemma EncodedRestored(
      d: Doubles, u: seq<real>, v: seq<real>, qu: Quantized, qv: Quantized, h: Header, ru: seq<real>, rv: seq<real>)
    requires u != [] && AllFinite(d.largest, u) && Quantize(d.largest, u) == Ok(qu)
    requires v != [] && AllFinite(d.largest, v) && Quantize(d.largest, v) == Ok(qv)
    requires |qu.samples| == |qv.samples| == h.width * h.height
    requires 0 < h.width <= SIDE_LIMIT && 0 < h.height <= SIDE_LIMIT && h.scaleU > 0.0 && h.scaleV > 0.0
    requires ru == Values(qu.samples, h.scaleU, h.offsetU) && AllFinite(d.largest, ru)
    requires rv == Values(qv.samples, h.scaleV, h.offsetV) && AllFinite(d.largest, rv)
    ensures Encode(d, ru, rv, h.width, h.height)
         == Ok(HeaderBytes(d, Resent(h, Minimum(u) == Maximum(u), Minimum(v) == Maximum(v)))
               + Body(qu.samples, qv.samples))
  {
    RequantizeRounded(d.largest, u, qu, h.scaleU, h.offsetU);
    RequantizeRounded(d.largest, v, qv, h.scaleV, h.offsetV);
  }

  /**
    Encoding a decoded tile gives the very bytes it was decoded from exactly when the codec is
    stable on its metadata.
  */
  lemma ReencodesToItselfIff(
      d: Doubles, u: seq<real>, v: seq<real>, width: int, height: int, payload: Bytes, tile: Tile)
    requires Encode(d, u, v, width, height) == Ok(payload) && Decode(d, payload) == Ok(tile)
    ensures Encode(d, tile.u, tile.v, tile.header.width, tile.header.height) == Ok(payload) <==>
      StableMetadata(d, u) && StableMetadata(d, v)
  {
    var qu, qv, sent := EncodedForm(d, u, v, width, height, payload);
    var _, _, _ := RoundTrip(d, u, v, width, height, payload);
    EncodedRestored(d, u, v, qu, qv, tile.header, tile.u, tile.v);
    ResentIsSameIff(d, u, v, qu, qv, sent, tile.header, Body(qu.samples, qv.samples));
  }

  /** A payload is accepted at exactly one length for its dimensions. */
  lemma AcceptedLength(d: Doubles, payload: Bytes, tile: Tile)
    requires Decode(d, payload) == Ok(tile)
    ensures 0 < tile.header.width <= 65535 && 0 < tile.header.height <= 65535
    ensures |tile.u| == |tile.v| == tile.header.width * tile.header.height
    ensures |payload| == 42 + 4 * |tile.u|
  {
  }

  /** Every check on the first 42 bytes and the length, in terms of bytes. */
  predicate HeaderPasses(d: Doubles, p: Bytes) {
    && |p| >= 42 && p[..6] == [0x57, 0x56, 0x45, 0x43, 1, 0]
    && d.read(p[10..18]).Some? && d.read(p[18..26]).Some? && d.read(p[26..34]).Some? && d.read(p[34..42]).Some?
    && d.read(p[10..18]).value > 0.0 && d.read(p[26..34]).value > 0.0
    && var width, height := 256 * p[6] as int + p[7] as int, 256 * p[8] as int + p[9] as int;
       width > 0 && height > 0 && |p| == 42 + 4 * (width * height)
  }

  /** The header that the bytes spell. */
  function HeaderSpelled(d: Doubles, p: Bytes): Header
    requires HeaderPasses(d, p)
  {
    Header(256 * p[6] as int + p[7] as int, 256 * p[8] as int + p[9] as int,
           d.read(p[10..18]).value, d.read(p[18..26]).value, d.read(p[26..34]).value, d.read(p[34..42]).value)
  }

  lemma CheckHeaderIff(d: Doubles, p: Bytes)
    ensures CheckHeader(d, p).Ok? <==> HeaderPasses(d, p)
    ensures HeaderPasses(d, p) ==> CheckHeader(d, p) == Ok(HeaderSpelled(d, p))
  {
    if |p| >= 42 {
      assert p[..6] == p[..4] + [p[4], p[5]];
    }
  }

  /** The two values of sample i, spelled by the four bytes at 42 + 4 i. */
  function SampleSpelled(h: Header, p: Bytes, i: nat): (real, real)
    requires 42 + 4 * i + 4 <= |p|
  {
    (Value(Spelled(p[42 + 4 * i], p[43 + 4 * i]), h.scaleU, h.offsetU),
     Value(Spelled(p[44 + 4 * i], p[45 + 4 * i]), h.scaleV, h.offsetV))
  }

  lemma SampleIsSpelled(p: Bytes, h: Header, count: nat, i: nat)
    requires |p| == 42 + 4 * count && i < count
    ensures Values(Plane(p, 42, count), h.scaleU, h.offsetU)[i] == SampleSpelled(h, p, i).0
    ensures Values(Plane(p, 44, count), h.scaleV, h.offsetV)[i] == SampleSpelled(h, p, i).1
  {
    SpelledAt(p, 42 + 4 * i);
    SpelledAt(p, 44 + 4 * i);
  }

  lemma SamplesAreSpelled(d: Doubles, p: Bytes, h: Header, count: nat)
    requires |p| == 42 + 4 * count
    ensures DecodeSamples(d, p, h, count).Some? <==>
      forall i | 0 <= i < count ::
        Finite(d.largest, SampleSpelled(h, p, i).0) && Finite(d.largest, SampleSpelled(h, p, i).1)
    ensures DecodeSamples(d, p, h, count).Some? ==>
      var (u, v) := DecodeSamples(d, p, h, count).value;
      |u| == |v| == count && forall i | 0 <= i < count :: (u[i], v[i]) == SampleSpelled(h, p, i)
  {
    var u := Values(Plane(p, 42, count), h.scaleU, h.offsetU);
    var v := Values(Plane(p, 44, count), h.scaleV, h.offsetV);
    forall i | 0 <= i < count
      ensures u[i] == SampleSpelled(h, p, i).0 && v[i] == SampleSpelled(h, p, i).1
    {
      SampleIsSpelled(p, h, count, i);
    }
    if AllFinite(d.largest, u) && AllFinite(d.largest, v) {
      assert forall i | 0 <= i < count :: u[i] in u && v[i] in v;
    }
  }

  /** Which payloads are accepted, and as what: every condition and every value in terms of bytes. */
  lemma DecodeIff(d: Doubles, p: Bytes)
    ensures Decode(d, p).Ok? <==>
      && HeaderPasses(d, p)
      && var h := HeaderSpelled(d, p);
         forall i | 0 <= i < h.width * h.height ::
           && -d.largest <= SampleSpelled(h, p, i).0 <= d.largest
           && -d.largest <= SampleSpelled(h, p, i).1 <= d.largest
    ensures Decode(d, p).Ok? ==>
      var tile := Decode(d, p).value;
      && HeaderPasses(d, p) && tile.header == HeaderSpelled(d, p)
      && |tile.u| == |tile.v| && |p| == 42 + 4 * |tile.u|
      && forall i | 0 <= i < |tile.u| :: (tile.u[i], tile.v[i]) == SampleSpelled(tile.header, p, i)
  {
    CheckHeaderIff(d, p);
    if HeaderPasses(d, p) {
      var h := HeaderSpelled(d, p);
      Area(h.width, h.height);
      SamplesAreSpelled(d, p, h, h.width * h.height);
    }
  }

  /** A decoded value is its level times the scale plus the offset. */
  lemma DecodedSample(d: Doubles, p: Bytes, tile: Tile, i: nat)
    requires Decode(d, p) == Ok(tile) && i < |tile.u|
    ensures |p| == 42 + 4 * |tile.u| && |tile.v| == |tile.u|
    ensures tile.u[i]
            == Spelled(p[42 + 4 * i], p[43 + 4 * i]) as real * tile.header.scaleU + tile.header.offsetU
    ensures tile.v[i]
            == Spelled(p[44 + 4 * i], p[45 + 4 * i]) as real * tile.header.scaleV + tile.header.offsetV
  {
    DecodeIff(d, p);
    assert (tile.u[i], tile.v[i]) == SampleSpelled(tile.header, p, i);
  }

  lemma SameValueSameLevel(k: int, l: int, scale: real, offset: real)
    requires scale > 0.0 && Value(k, scale, offset) == Value(l, scale, offset)
    ensures k == l
  {
    ValueOrder(scale, offset, k, l);
    ValueOrder(scale, offset, l, k);
  }

  lemma SameWord(p: Bytes, q: Bytes, at: nat, scale: real, offset: real)
    requires at + 2 <= |p| == |q| && scale > 0.0
    requires Value(SignedAt(p, at), scale, offset) == Value(SignedAt(q, at), scale, offset)
    ensures p[at] == q[at] && p[at + 1] == q[at + 1]
  {
    SameValueSameLevel(SignedAt(p, at), SignedAt(q, at), scale, offset);
    SignedIsInjective(p[at], p[at + 1], q[at], q[at + 1]);
  }

  lemma SameSample(p: Bytes, q: Bytes, h: Header, count: nat, i: nat)
    requires |p| == |q| == HEADER_SIZE + SAMPLE_SIZE * count && i < count
    requires h.scaleU > 0.0 && h.scaleV > 0.0
    requires Values(Plane(p, HEADER_SIZE, count), h.scaleU, h.offsetU)
          == Values(Plane(q, HEADER_SIZE, count), h.scaleU, h.offsetU)
    requires Values(Plane(p, HEADER_SIZE + 2, count), h.scaleV, h.offsetV)
          == Values(Plane(q, HEADER_SIZE + 2, count), h.scaleV, h.offsetV)
    ensures var at := HEADER_SIZE + SAMPLE_SIZE * i;
      p[at] == q[at] && p[at + 1] == q[at + 1] && p[at + 2] == q[at + 2] && p[at + 3] == q[at + 3]
  {
    var at := HEADER_SIZE + SAMPLE_SIZE * i;
    assert Values(Plane(p, HEADER_SIZE, count), h.scaleU, h.offsetU)[i]
        == Values(Plane(q, HEADER_SIZE, count), h.scaleU, h.offsetU)[i];
    assert Values(Plane(p, HEADER_SIZE + 2, count), h.scaleV, h.offsetV)[i]
        == Values(Plane(q, HEADER_SIZE + 2, count), h.scaleV, h.offsetV)[i];
    SameWord(p, q, at, h.scaleU, h.offsetU);
    SameWord(p, q, at + 2, h.scaleV, h.offsetV);
  }

  lemma SameHeaderBytes(d: Doubles, p: Bytes, q: Bytes)
    requires CheckHeader(d, p).Ok? && CheckHeader(d, q).Ok?
    requires p[6..HEADER_SIZE] == q[6..HEADER_SIZE]
    ensures p[..HEADER_SIZE] == q[..HEADER_SIZE]
    ensures CheckHeader(d, p) == CheckHeader(d, q) && |p| == |q|
  {
    assert p[..HEADER_SIZE] == p[..4] + [p[4], p[5]] + p[6..HEADER_SIZE];
    assert q[..HEADER_SIZE] == q[..4] + [q[4], q[5]] + q[6..HEADER_SIZE];
    forall at | 6 <= at && at + 8 <= HEADER_SIZE
      ensures WordAt(p, at) == WordAt(q, at)
    {
      assert WordAt(p, at) == p[6..HEADER_SIZE][at - 6..at + 2];
    }
    forall at | 6 <= at < HEADER_SIZE
      ensures p[at] == q[at]
    {
      assert p[at] == p[6..HEADER_SIZE][at - 6];
    }
  }

  /** Dimensions, scale and offset words and decoded samples determine an accepted payload. */
  lemma PayloadIsDetermined(d: Doubles, p: Bytes, q: Bytes, a: Tile, b: Tile)
    requires Decode(d, p) == Ok(a) && Decode(d, q) == Ok(b)
    ensures p == q <==> p[6..HEADER_SIZE] == q[6..HEADER_SIZE] && a.u == b.u && a.v == b.v
  {
    if p[6..HEADER_SIZE] == q[6..HEADER_SIZE] && a.u == b.u && a.v == b.v {
      SameHeaderBytes(d, p, q);
      var h := a.header;
      var count := h.width * h.height;
      forall k | 0 <= k < |p|
        ensures p[k] == q[k]
      {
        if k < HEADER_SIZE {
          assert p[k] == p[..HEADER_SIZE][k];
        } else {
          SameSample(p, q, h, count, SampleIndex(k - HEADER_SIZE));
        }
      }
    }
  }
}
