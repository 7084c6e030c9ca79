/** Byte-level formats: big-endian integers, length-prefixed frames, the 28-byte media header. */
module Wire {
  import opened Common

  type Bytes = seq<byte>

  lemma Regroup(a: Bytes, b: Bytes, c: Bytes)
    ensures a + b + c == a + (b + c)
  {
  }

  // ------------------------------------------------------------ big endian

  function Pow256(n: nat): (p: nat)
    ensures p > 0
  {
    if n == 0 then 1 else 256 * Pow256(n - 1)
  }

  function ToBe(v: nat, n: nat): (s: Bytes)
    ensures |s| == n
  {
    if n == 0 then [] else ToBe(v / 256, n - 1) + [v % 256]
  }

  function FromBe(s: Bytes): nat {
    if s == [] then 0 else FromBe(s[..|s| - 1]) * 256 + s[|s| - 1]
  }

  lemma {:induction false} BeRoundTrip(v: nat, n: nat)
    requires v < Pow256(n)
    ensures FromBe(ToBe(v, n)) == v
  {
    if n > 0 {
      BeRoundTrip(v / 256, n - 1);
      assert ToBe(v, n)[..n - 1] == ToBe(v / 256, n - 1);
    }
  }

  lemma {:induction false} BeOnto(s: Bytes)
    ensures FromBe(s) < Pow256(|s|) && ToBe(FromBe(s), |s|) == s
  {
    if s != [] {
      BeOnto(s[..|s| - 1]);
    }
  }

  lemma DivDiv(v: nat, d: nat)
    requires d > 0
    ensures v / 256 / d == v / (256 * d)
  {
    var q, r := v / 256 / d, v / 256 % d;
    var w := v % 256;
    assert v / 256 == q * d + r;
    assert v == q * (256 * d) + (256 * r + w);
    QuotientIs(v, 256 * d, q, 256 * r + w);
  }

  lemma QuotientIs(v: nat, d: nat, q: nat, r: nat)
    requires r < d && v == q * d + r
    ensures v / d == q
  {
    var k: int := v / d - q;
    var e: int := d;
    assert k * e == r - v % d by {
      assert v == v / d * d + v % d;
    }
    assert k >= 1 ==> k * e >= e;
    assert k <= -1 ==> k * e <= -e;
  }

  /** Byte `i` of the encoding is the value shifted right by the bytes after it. */
  lemma {:induction false} BeByte(v: nat, n: nat, i: nat)
    requires i < n
    ensures ToBe(v, n)[i] == v / Pow256(n - 1 - i) % 256
  {
    if i < n - 1 {
      BeByte(v / 256, n - 1, i);
      DivDiv(v, Pow256(n - 2 - i));
    }
  }

  lemma PowersOf256()
    ensures Pow256(1) == 0x100 && Pow256(2) == 0x1_0000 && Pow256(3) == 0x100_0000
    ensures Pow256(4) == 0x1_0000_0000 && Pow256(8) == 0x1_0000_0000_0000_0000
  {
    assert Pow256(4) == 256 * Pow256(3);
    assert Pow256(6) == 256 * Pow256(5) && Pow256(5) == 256 * Pow256(4);
    assert Pow256(8) == 256 * Pow256(7) && Pow256(7) == 256 * Pow256(6);
  }

  // --------------------------------------------------------------- framing

  const PREFIX_LEN := 4

  /** A payload of 4 GiB or more makes the writer panic. */
  function Frame(payload: Bytes): (f: Bytes)
    requires |payload| <= U32_MAX
  {
    ToBe(|payload|, PREFIX_LEN) + payload
  }

  datatype FrameError = TooLarge(len: nat, max: u32)

  datatype Unframed = Unframed(payload: Bytes, total: nat)

  function TryUnframe(buf: Bytes, max: u32): Result<Option<Unframed>, FrameError> {
    if |buf| < PREFIX_LEN then Ok(None)
    else
      var len := FromBe(buf[..PREFIX_LEN]);
      if len > max then Err(TooLarge(len, max))
      else if |buf| < PREFIX_LEN + len then Ok(None)
      else Ok(Some(Unframed(buf[PREFIX_LEN..PREFIX_LEN + len], PREFIX_LEN + len)))
  }

  /** One complete frame, whatever follows it, comes back whole. */
  lemma UnframeFrame(payload: Bytes, rest: Bytes, max: u32)
    requires |payload| <= max
    ensures TryUnframe(Frame(payload) + rest, max) == Ok(Some(Unframed(payload, |Frame(payload)|)))
  {
    PowersOf256();
    BeRoundTrip(|payload|, PREFIX_LEN);
    var buf := Frame(payload) + rest;
    assert buf[..PREFIX_LEN] == ToBe(|payload|, PREFIX_LEN);
    assert buf[PREFIX_LEN..PREFIX_LEN + |payload|] == payload;
  }

  /** A frame cut short anywhere asks for more bytes. */
  lemma UnframePrefix(payload: Bytes, cut: nat, max: u32)
    requires |payload| <= max && cut < |Frame(payload)|
    ensures TryUnframe(Frame(payload)[..cut], max) == Ok(None)
  {
    PowersOf256();
    BeRoundTrip(|payload|, PREFIX_LEN);
    if cut >= PREFIX_LEN {
      assert Frame(payload)[..cut][..PREFIX_LEN] == ToBe(|payload|, PREFIX_LEN);
    }
  }

  /** A longer payload than the limit is refused as soon as its length is known. */
  lemma UnframeTooLarge(payload: Bytes, cut: nat, max: u32)
    requires max < |payload| <= U32_MAX && 4 <= cut <= |Frame(payload)|
    ensures TryUnframe(Frame(payload)[..cut], max) == Err(TooLarge(|payload|, max))
  {
    PowersOf256();
    BeRoundTrip(|payload|, PREFIX_LEN);
    assert Frame(payload)[..cut][..PREFIX_LEN] == ToBe(|payload|, PREFIX_LEN);
  }

  /** Once the reader has an answer, later bytes cannot change it. */
  lemma UnframeStable(buf: Bytes, more: Bytes, max: u32)
    requires TryUnframe(buf, max) != Ok(None)
    ensures TryUnframe(buf + more, max) == TryUnframe(buf, max)
  {
    assert (buf + more)[..PREFIX_LEN] == buf[..PREFIX_LEN];
    var len := FromBe(buf[..PREFIX_LEN]);
    if len <= max {
      assert (buf + more)[PREFIX_LEN..PREFIX_LEN + len] == buf[PREFIX_LEN..PREFIX_LEN + len];
    }
  }

  /** Everything a caller that loops on `TryUnframe` gets out of a buffer, and what it keeps. */
  datatype Drained = Drained(payloads: seq<Bytes>, rest: Bytes, failed: bool)

  function Drain(buf: Bytes, max: u32): (d: Drained)
    ensures |d.rest| <= |buf|
    ensures !d.failed ==> TryUnframe(d.rest, max) == Ok(None)
    decreases |buf|
  {
    match TryUnframe(buf, max)
    case Err(_) => Drained([], buf, true)
    case Ok(None) => Drained([], buf, false)
    case Ok(Some(u)) =>
      var d := Drain(buf[u.total..], max);
      d.(payloads := [u.payload] + d.payloads)
  }

  lemma DrainSome(buf: Bytes, max: u32, u: Unframed)
    requires TryUnframe(buf, max) == Ok(Some(u))
    ensures Drain(buf, max).rest == Drain(buf[u.total..], max).rest
    ensures Drain(buf, max).failed == Drain(buf[u.total..], max).failed
    ensures Drain(buf, max).payloads == [u.payload] + Drain(buf[u.total..], max).payloads
  {
  }

  /** What has been read in two goes. */
  function Resume(d: Drained, e: Drained): Drained { e.(payloads := d.payloads + e.payloads) }

  lemma ResumePrepends(p: Bytes, d: Drained, e: Drained)
    ensures Resume(d.(payloads := [p] + d.payloads), e)
         == Resume(d, e).(payloads := [p] + Resume(d, e).payloads)
  {
    assert ([p] + d.payloads) + e.payloads == [p] + (d.payloads + e.payloads);
  }

  /** Draining early and then again after more bytes arrive equals draining once at the end. */
  lemma {:induction false} DrainIncremental(buf: Bytes, more: Bytes, max: u32)
    requires !Drain(buf, max).failed
    ensures var d := Drain(buf, max);
      Drain(buf + more, max) == Resume(d, Drain(d.rest + more, max))
    decreases |buf|
  {
    match TryUnframe(buf, max)
    case Ok(Some(u)) =>
      UnframeStable(buf, more, max);
      DrainSome(buf, max, u);
      DrainSome(buf + more, max, u);
      assert (buf + more)[u.total..] == buf[u.total..] + more;
      DrainIncremental(buf[u.total..], more, max);
      ResumePrepends(u.payload, Drain(buf[u.total..], max), Drain(Drain(buf, max).rest + more, max));
    case Ok(None) =>
      assert Drain(buf, max) == Drained([], buf, false);
  }

  function Frames(payloads: seq<Bytes>): Bytes
    requires forall p :: p in payloads ==> |p| <= U32_MAX
  {
    if payloads == [] then [] else Frame(payloads[0]) + Frames(payloads[1..])
  }

  lemma {:induction false} DrainFrames(payloads: seq<Bytes>, max: u32)
    requires forall p :: p in payloads ==> |p| <= max
    ensures Drain(Frames(payloads), max) == Drained(payloads, [], false)
  {
    if payloads != [] {
      var p, rest := payloads[0], Frames(payloads[1..]);
      UnframeFrame(p, rest, max);
      DrainFrames(payloads[1..], max);
      assert (Frame(p) + rest)[|Frame(p)|..] == rest;
    }
  }

  function Flatten(chunks: seq<Bytes>): Bytes {
    if chunks == [] then [] else Flatten(chunks[..|chunks| - 1]) + chunks[|chunks| - 1]
  }

  /** An incremental reader: append each chunk, take out every complete frame. */
  class FrameReader {
    const max: u32
    var buf: Bytes
    var payloads: seq<Bytes>
    var failed: bool

    constructor (max: u32)
      ensures this.max == max && buf == [] && payloads == [] && !failed
    {
      this.max := max;
      buf, payloads, failed := [], [], false;
    }

    method Feed(chunk: Bytes)
      requires !failed
      modifies this
      ensures var d := Drain(old(buf) + chunk, max);
        buf == d.rest && payloads == old(payloads) + d.payloads && failed == d.failed
    {
      buf := buf + chunk;
      ghost var whole := buf;
      ghost var before := payloads;
      while true
        invariant !failed
        invariant var d, e := Drain(whole, max), Drain(buf, max);
          d.rest == e.rest && d.failed == e.failed
          && before + d.payloads == payloads + e.payloads
        decreases |buf|
      {
        match TryUnframe(buf, max)
        case Err(_) =>
          failed := true;
          return;
        case Ok(None) => return;
        case Ok(Some(u)) =>
          DrainSome(buf, max, u);
          assert payloads + ([u.payload] + Drain(buf[u.total..], max).payloads)
              == (payloads + [u.payload]) + Drain(buf[u.total..], max).payloads;
          payloads := payloads + [u.payload];
          buf := buf[u.total..];
      }
    }
  }

  /** State of an incremental reader after a list of chunks; a failed reader stops reading. */
  function FeedAll(chunks: seq<Bytes>, max: u32): Drained {
    if chunks == [] then Drained([], [], false)
    else
      var d := FeedAll(chunks[..|chunks| - 1], max);
      if d.failed then d
      else Resume(d, Drain(d.rest + chunks[|chunks| - 1], max))
  }

  lemma {:induction false} DrainPrefixSafe(buf: Bytes, more: Bytes, max: u32)
    ensures !Drain(buf + more, max).failed ==> !Drain(buf, max).failed
    decreases |buf|
  {
    match TryUnframe(buf, max)
    case Ok(None) =>
    case Err(_) =>
      UnframeStable(buf, more, max);
    case Ok(Some(u)) =>
      UnframeStable(buf, more, max);
      assert (buf + more)[u.total..] == buf[u.total..] + more;
      DrainPrefixSafe(buf[u.total..], more, max);
  }

  /** Cutting a good byte stream into chunks changes nothing. */
  lemma {:induction false} FeedAllIsDrain(chunks: seq<Bytes>, max: u32)
    requires !Drain(Flatten(chunks), max).failed
    ensures FeedAll(chunks, max) == Drain(Flatten(chunks), max)
  {
    if chunks != [] {
      var prefix, last := chunks[..|chunks| - 1], chunks[|chunks| - 1];
      DrainPrefixSafe(Flatten(prefix), last, max);
      FeedAllIsDrain(prefix, max);
      DrainIncremental(Flatten(prefix), last, max);
    }
  }

  /** Any list of payloads within the limit survives any chunking of its concatenated frames. */
  lemma ChunkingIsInvisible(payloads: seq<Bytes>, chunks: seq<Bytes>, max: u32)
    requires forall p :: p in payloads ==> |p| <= max
    requires Flatten(chunks) == Frames(payloads)
    ensures FeedAll(chunks, max) == Drained(payloads, [], false)
  {
    DrainFrames(payloads, max);
    FeedAllIsDrain(chunks, max);
  }

  // ---------------------------------------------------------- media header

  const MAGIC := 0xCC01
  const HEADER_LEN := 28
  const FULL_RANGE := 4

  datatype Codec = RawCodec | HevcCodec | H264Codec

  /** The media type is omitted: video (1) is the only one. Bits 4 to 7 of `flags` have no meaning. */
  datatype MediaHeader = MediaHeader(
    flags: byte, codec: Codec, width: u16, height: u16,
    seq32: u32, ptsUsec: u64, payloadLen: u32)

  datatype DecodeError = TooShort(got: nat) | BadMagic(magic: nat) | UnknownMediaType(t: byte) | UnknownCodec(c: byte)

  function CodecByte(c: Codec): byte {
    match c case RawCodec => 0 case HevcCodec => 1 case H264Codec => 2
  }

  function HeaderBytes(h: MediaHeader): (s: Bytes)
    ensures |s| == HEADER_LEN
  {
    ToBe(MAGIC, 2) + [1, h.flags, CodecByte(h.codec), 0, 0, 0]
    + ToBe(h.width, 2) + ToBe(h.height, 2) + ToBe(h.seq32, 4) + ToBe(h.ptsUsec, 8) + ToBe(h.payloadLen, 4)
  }

  /** Where each field sits. */
  predicate LaidOut(s: Bytes, h: MediaHeader) {
    && |s| == HEADER_LEN
    && s[0..2] == ToBe(MAGIC, 2) && s[2] == 1 && s[3] == h.flags && s[4] == CodecByte(h.codec)
    && s[5] == s[6] == s[7] == 0
    && s[8..10] == ToBe(h.width, 2) && s[10..12] == ToBe(h.height, 2)
    && s[12..16] == ToBe(h.seq32, 4) && s[16..24] == ToBe(h.ptsUsec, 8)
    && s[24..28] == ToBe(h.payloadLen, 4)
  }

  lemma LaidOutIff(s: Bytes, h: MediaHeader)
    ensures LaidOut(s, h) <==> s == HeaderBytes(h)
  {
    if LaidOut(s, h) {
      assert s == s[0..2] + [s[2], s[3], s[4], s[5], s[6], s[7]]
                  + s[8..10] + s[10..12] + s[12..16] + s[16..24] + s[24..28];
    }
  }

  method CopyInto(out: array<byte>, offset: nat, s: Bytes)
    requires offset + |s| <= out.Length
    modifies out
    ensures out[..offset + |s|] == old(out[..offset]) + s
    ensures out[offset + |s|..] == old(out[offset + |s|..])
  {
    forall k | offset <= k < offset + |s| {
      out[k] := s[k - offset];
    }
  }

  /** The Rust encoder: slices of a zeroed array overwritten field by field. */
  method EncodeRust(h: MediaHeader) returns (out: array<byte>)
    ensures fresh(out) && out[..] == HeaderBytes(h)
  {
    out := new byte[HEADER_LEN](_ => 0);
    CopyInto(out, 0, ToBe(MAGIC, 2));
    assert out[..2] == ToBe(MAGIC, 2) && out[2..][3] == out[2..][4] == out[2..][5] == 0;
    out[2] := 1;
    out[3] := h.flags;
    out[4] := CodecByte(h.codec);
    assert out[..8] == out[..2] + [out[2], out[3], out[4], out[5], out[6], out[7]];
    CopyInto(out, 8, ToBe(h.width, 2));
    CopyInto(out, 10, ToBe(h.height, 2));
    CopyInto(out, 12, ToBe(h.seq32, 4));
    CopyInto(out, 16, ToBe(h.ptsUsec, 8));
    CopyInto(out, 24, ToBe(h.payloadLen, 4));
    assert out[..] == out[..HEADER_LEN];
  }

  method WriteBe32(p: array<byte>, v: u32, offset: nat)
    requires offset + 4 <= p.Length
    modifies p
    ensures p[..offset + 4] == old(p[..offset]) + ToBe(v, 4)
    ensures p[offset + 4..] == old(p[offset + 4..])
  {
    p[offset] := v / 0x100_0000 % 256;
    p[offset + 1] := v / 0x1_0000 % 256;
    p[offset + 2] := v / 0x100 % 256;
    p[offset + 3] := v % 256;
    PowersOf256();
    BeByte(v, 4, 0);
    BeByte(v, 4, 1);
    BeByte(v, 4, 2);
    BeByte(v, 4, 3);
  }

  method WriteBe64(p: array<byte>, v: u64, offset: nat)
    requires offset + 8 <= p.Length
    modifies p
    ensures p[..offset + 8] == old(p[..offset]) + ToBe(v, 8)
    ensures p[offset + 8..] == old(p[offset + 8..])
  {
    for i := 0 to 8
      invariant p[..offset] == old(p[..offset])
      invariant forall k :: 0 <= k < i ==> p[offset + k] == ToBe(v, 8)[k]
      invariant p[offset + 8..] == old(p[offset + 8..])
    {
      BeByte(v, 8, i);
      p[offset + i] := v / Pow256(7 - i) % 256;
    }
    assert p[offset..offset + 8] == ToBe(v, 8);
    assert p[..offset + 8] == p[..offset] + p[offset..offset + 8];
  }

  /** The bytes before `seq`: single-byte fields, then two 16-bit ones by shift and mask. */
  method WriteFront(p: array<byte>, h: MediaHeader)
    requires p.Length == HEADER_LEN && p[5] == p[6] == p[7] == 0
    modifies p
    ensures p[..12] == ToBe(MAGIC, 2) + [1, h.flags, CodecByte(h.codec), 0, 0, 0]
                       + ToBe(h.width, 2) + ToBe(h.height, 2)
  {
    p[0], p[1] := MAGIC / 256, MAGIC % 256;
    p[2] := 1;
    p[3] := h.flags;
    p[4] := CodecByte(h.codec);
    p[8], p[9] := h.width / 256, h.width % 256;
    p[10], p[11] := h.height / 256, h.height % 256;
    assert p[..12] == [p[0], p[1]] + [p[2], p[3], p[4], p[5], p[6], p[7]] + [p[8], p[9]] + [p[10], p[11]];
    TwoBytes(MAGIC);
    TwoBytes(h.width);
    TwoBytes(h.height);
  }

  /** The Swift encoder: shifts and masks through a pointer. It agrees with the Rust one byte for byte. */
  method EncodeSwift(h: MediaHeader) returns (p: array<byte>)
    ensures fresh(p) && p[..] == HeaderBytes(h)
  {
    p := new byte[HEADER_LEN](_ => 0);
    WriteFront(p, h);
    WriteBe32(p, h.seq32, 12);
    WriteBe64(p, h.ptsUsec, 16);
    WriteBe32(p, h.payloadLen, 24);
    assert p[..] == p[..HEADER_LEN];
  }

  lemma TwoBytes(v: u16)
    ensures ToBe(v, 2) == [v / 256, v % 256]
  {
    assert ToBe(v / 256, 1) == ToBe(v / 256 / 256, 0) + [v / 256 % 256];
  }

  function CodecOf(b: byte): Option<Codec> {
    match b case 0 => Some(RawCodec) case 1 => Some(HevcCodec) case 2 => Some(H264Codec) case _ => None
  }

  /** Both decoders mask unknown flag bits and skip the reserved bytes. */
  function Decode(buf: Bytes): Result<MediaHeader, DecodeError> {
    if |buf| < HEADER_LEN then Err(TooShort(|buf|))
    else
      var magic := FromBe(buf[0..2]);
      if magic != MAGIC then Err(BadMagic(magic))
      else if buf[2] != 1 then Err(UnknownMediaType(buf[2]))
      else
        match CodecOf(buf[4])
        case None => Err(UnknownCodec(buf[4]))
        case Some(codec) =>
          FieldsFit(buf);
          Ok(MediaHeader(buf[3] % 16, codec, FromBe(buf[8..10]), FromBe(buf[10..12]),
                         FromBe(buf[12..16]), FromBe(buf[16..24]), FromBe(buf[24..28])))
  }

  lemma FieldsFit(buf: Bytes)
    requires |buf| >= HEADER_LEN
    ensures FromBe(buf[8..10]) <= U16_MAX && FromBe(buf[10..12]) <= U16_MAX
    ensures FromBe(buf[12..16]) <= U32_MAX && FromBe(buf[24..28]) <= U32_MAX
    ensures FromBe(buf[16..24]) <= U64_MAX
  {
    PowersOf256();
    BeOnto(buf[8..10]);
    BeOnto(buf[10..12]);
    BeOnto(buf[12..16]);
    BeOnto(buf[16..24]);
    BeOnto(buf[24..28]);
  }

  method ReadBe64(d: Bytes, offset: nat) returns (v: u64)
    requires offset + 8 <= |d|
    ensures v == FromBe(d[offset..offset + 8])
  {
    var acc: nat := 0;
    PowersOf256();
    for i := 0 to 8
      invariant acc == FromBe(d[offset..offset + i])
    {
      assert d[offset..offset + i + 1][..i] == d[offset..offset + i];
      acc := acc * 256 + d[offset + i];
    }
    BeOnto(d[offset..offset + 8]);
    v := acc;
  }

  function Be2(a: nat, b: nat): nat { a * 0x100 + b }

  function Be4(a: nat, b: nat, c: nat, d: nat): nat { a * 0x100_0000 + b * 0x1_0000 + c * 0x100 + d }

  /** The Swift decoder, with its shift-and-or readers. */
  method DecodeSwift(data: Bytes) returns (r: Result<MediaHeader, DecodeError>)
    ensures r == Decode(data)
  {
    if |data| < HEADER_LEN {
      return Err(TooShort(|data|));
    }
    FieldsFit(data);
    ReadTwo(data, 0);
    ReadTwo(data, 8);
    ReadTwo(data, 10);
    ReadFour(data, 12);
    ReadFour(data, 24);
    var magic := Be2(data[0], data[1]);
    if magic != MAGIC {
      return Err(BadMagic(magic));
    }
    if data[2] != 1 {
      return Err(UnknownMediaType(data[2]));
    }
    var codec := CodecOf(data[4]);
    if codec.None? {
      return Err(UnknownCodec(data[4]));
    }
    var width, height := Be2(data[8], data[9]), Be2(data[10], data[11]);
    var seq32 := Be4(data[12], data[13], data[14], data[15]);
    var pts := ReadBe64(data, 16);
    var len := Be4(data[24], data[25], data[26], data[27]);
    r := Ok(MediaHeader(data[3] % 16, codec.value, width, height, seq32, pts, len));
  }

  lemma ReadTwo(d: Bytes, i: nat)
    requires i + 2 <= |d|
    ensures FromBe(d[i..i + 2]) == Be2(d[i], d[i + 1])
  {
    assert d[i..i + 2][..1] == [d[i]];
    assert FromBe([d[i]]) == FromBe([d[i]][..0]) * 256 + d[i];
  }

  lemma ReadFour(d: Bytes, i: nat)
    requires i + 4 <= |d|
    ensures FromBe(d[i..i + 4]) == Be4(d[i], d[i + 1], d[i + 2], d[i + 3])
  {
    ReadTwo(d, i);
    assert d[i..i + 4][..3] == d[i..i + 3] && d[i..i + 3][..2] == d[i..i + 2];
  }

  /** The 28 bytes of a header, one by one; `Be2` and `Be4` are the big-endian values of two and four. */
  lemma HeaderBytesAre(h: MediaHeader)
    ensures var s := HeaderBytes(h);
      && |s| == 28 && s[0] == 0xCC && s[1] == 0x01 && s[2] == 1 && s[3] == h.flags
      && (h.codec == RawCodec ==> s[4] == 0) && (h.codec == HevcCodec ==> s[4] == 1)
      && (h.codec == H264Codec ==> s[4] == 2)
      && s[5] == 0 && s[6] == 0 && s[7] == 0
      && Be2(s[8], s[9]) == h.width && Be2(s[10], s[11]) == h.height
      && Be4(s[12], s[13], s[14], s[15]) == h.seq32
      && Be8(s, 16) == h.ptsUsec
      && Be4(s[24], s[25], s[26], s[27]) == h.payloadLen
  {
    var s := HeaderBytes(h);
    LaidOutIff(s, h);
    MagicBytes(s);
    FieldIs2(s, 8, h.width);
    FieldIs2(s, 10, h.height);
    FieldIs4(s, 12, h.seq32);
    FieldIs8(s, 16, h.ptsUsec);
    FieldIs4(s, 24, h.payloadLen);
  }

  lemma MagicBytes(s: Bytes)
    requires |s| >= 2 && s[0..2] == ToBe(MAGIC, 2)
    ensures s[0] == 0xCC && s[1] == 0x01
  {
    TwoBytes(MAGIC);
    assert s[0] == s[0..2][0] && s[1] == s[0..2][1];
  }

  lemma FieldIs2(s: Bytes, i: nat, v: u16)
    requires i + 2 <= |s| && s[i..i + 2] == ToBe(v, 2)
    ensures Be2(s[i], s[i + 1]) == v
  {
    TwoBytes(v);
    assert s[i] == s[i..i + 2][0] && s[i + 1] == s[i..i + 2][1];
  }

  lemma FieldIs4(s: Bytes, i: nat, v: u32)
    requires i + 4 <= |s| && s[i..i + 4] == ToBe(v, 4)
    ensures Be4(s[i], s[i + 1], s[i + 2], s[i + 3]) == v
  {
    PowersOf256();
    BeRoundTrip(v, 4);
    ReadFour(s, i);
  }

  lemma FieldIs8(s: Bytes, i: nat, v: u64)
    requires i + 8 <= |s| && s[i..i + 8] == ToBe(v, 8)
    ensures Be8(s, i) == v
  {
    PowersOf256();
    BeRoundTrip(v, 8);
    ReadEight(s, i);
  }

  function Be8(s: Bytes, i: nat): nat
    requires i + 8 <= |s|
  {
    0x1_0000_0000 * Be4(s[i], s[i + 1], s[i + 2], s[i + 3]) + Be4(s[i + 4], s[i + 5], s[i + 6], s[i + 7])
  }

  lemma ReadEight(s: Bytes, i: nat)
    requires i + 8 <= |s|
    ensures FromBe(s[i..i + 8]) == Be8(s, i)
  {
    ReadFour(s, i);
    ReadFour(s, i + 4);
    HighAndLow(s[i..i + 8]);
    assert s[i..i + 8][..4] == s[i..i + 4] && s[i..i + 8][4..] == s[i + 4..i + 8];
  }

  /** Eight bytes are four high and four low ones. */
  lemma HighAndLow(s: Bytes)
    requires |s| == 8
    ensures FromBe(s) == 0x1_0000_0000 * FromBe(s[..4]) + FromBe(s[4..])
  {
    var a, b := s[..4], s[4..];
    assert FromBe(s) == FromBe(s[..7]) * 256 + s[7];
    assert s[..7][..6] == s[..6] && s[..6][..5] == s[..5] && s[..5][..4] == a;
    assert FromBe(s[..7]) == FromBe(s[..6]) * 256 + s[6];
    assert FromBe(s[..6]) == FromBe(s[..5]) * 256 + s[5];
    assert FromBe(s[..5]) == FromBe(a) * 256 + s[4];
    ReadFour(s, 4);
    assert s[4..8] == b;
  }

  /** Exactly which bytes either decoder accepts, in which order it finds fault, and what it reads. */
  lemma DecodesIff(buf: Bytes)
    ensures var r := Decode(buf);
      && (|buf| < 28 ==> r == Err(TooShort(|buf|)))
      && (|buf| >= 28 && !(buf[0] == 0xCC && buf[1] == 0x01) ==> r == Err(BadMagic(Be2(buf[0], buf[1]))))
      && (|buf| >= 28 && buf[0] == 0xCC && buf[1] == 0x01 ==>
            && (buf[2] != 1 ==> r == Err(UnknownMediaType(buf[2])))
            && (buf[2] == 1 && buf[4] > 2 ==> r == Err(UnknownCodec(buf[4])))
            && (buf[2] == 1 && buf[4] <= 2 ==>
                  && r.Ok? && r.value.flags == buf[3] % 16
                  && r.value.codec == (if buf[4] == 0 then RawCodec else if buf[4] == 1 then HevcCodec else H264Codec)
                  && r.value.width == Be2(buf[8], buf[9]) && r.value.height == Be2(buf[10], buf[11])
                  && r.value.seq32 == Be4(buf[12], buf[13], buf[14], buf[15])
                  && r.value.ptsUsec == Be8(buf, 16)
                  && r.value.payloadLen == Be4(buf[24], buf[25], buf[26], buf[27])))
  {
    if |buf| >= 28 {
      ReadTwo(buf, 0);
      ReadTwo(buf, 8);
      ReadTwo(buf, 10);
      ReadFour(buf, 12);
      ReadEight(buf, 16);
      ReadFour(buf, 24);
    }
  }

  lemma FieldsRoundTrip(h: MediaHeader)
    ensures FromBe(ToBe(MAGIC, 2)) == MAGIC
    ensures FromBe(ToBe(h.width, 2)) == h.width && FromBe(ToBe(h.height, 2)) == h.height
    ensures FromBe(ToBe(h.seq32, 4)) == h.seq32 && FromBe(ToBe(h.payloadLen, 4)) == h.payloadLen
    ensures FromBe(ToBe(h.ptsUsec, 8)) == h.ptsUsec
  {
    PowersOf256();
    BeRoundTrip(MAGIC, 2);
    BeRoundTrip(h.width, 2);
    BeRoundTrip(h.height, 2);
    BeRoundTrip(h.seq32, 4);
    BeRoundTrip(h.ptsUsec, 8);
    BeRoundTrip(h.payloadLen, 4);
  }

  predicate SameFields(a: Bytes, b: Bytes)
    requires |a| >= HEADER_LEN && |b| >= HEADER_LEN
  {
    && a[0..2] == b[0..2] && a[2] == b[2] && a[4] == b[4]
    && a[8..10] == b[8..10] && a[10..12] == b[10..12]
    && a[12..16] == b[12..16] && a[16..24] == b[16..24] && a[24..28] == b[24..28]
  }

  lemma ExtendKeepsFields(s: Bytes, rest: Bytes)
    requires |s| == HEADER_LEN
    ensures SameFields(s + rest, s) && (s + rest)[3] == s[3]
  {
  }

  lemma {:induction false} DecodeSameFields(a: Bytes, b: Bytes)
    requires |a| >= HEADER_LEN && |b| >= HEADER_LEN
    requires SameFields(a, b) && a[3] % 16 == b[3] % 16
    ensures Decode(a) == Decode(b)
  {
  }

  lemma {:induction false} DecodeHeaderBytes(h: MediaHeader)
    ensures Decode(HeaderBytes(h)) == Ok(h.(flags := h.flags % 16))
  {
    LaidOutIff(HeaderBytes(h), h);
    FieldsRoundTrip(h);
  }

  /** Decoding what either encoder wrote gives the header back, less meaningless flag bits. */
  lemma HeaderRoundTrip(h: MediaHeader, rest: Bytes)
    ensures Decode(HeaderBytes(h) + rest) == Ok(h.(flags := h.flags % 16))
  {
    ExtendKeepsFields(HeaderBytes(h), rest);
    DecodeSameFields(HeaderBytes(h) + rest, HeaderBytes(h));
    DecodeHeaderBytes(h);
  }

  /** A header's bytes with the bits a decoder ignores cleared. */
  function Normalised(buf: Bytes): (s: Bytes)
    requires |buf| >= HEADER_LEN
    ensures |s| == HEADER_LEN
  {
    buf[..3] + [buf[3] % 16, buf[4], 0, 0, 0] + buf[8..HEADER_LEN]
  }

  lemma SliceOfSum(a: Bytes, b: Bytes, i: nat, j: nat)
    requires |a| <= i <= j <= |a| + |b|
    ensures (a + b)[i..j] == b[i - |a|..j - |a|]
  {
  }

  lemma SliceOfSlice(s: Bytes, k: nat, n: nat, i: nat, j: nat)
    requires k <= n <= |s| && i <= j <= n - k
    ensures s[k..n][i..j] == s[k + i..k + j]
  {
    var a, b := s[k..n][i..j], s[k + i..k + j];
    assert |a| == |b|;
    forall x | 0 <= x < |a| ensures a[x] == b[x] {
      assert a[x] == s[k..n][i + x] == s[k + (i + x)];
    }
  }

  lemma NormalisedSlice(buf: Bytes, i: nat, j: nat)
    requires |buf| >= HEADER_LEN && 8 <= i <= j <= HEADER_LEN
    ensures Normalised(buf)[i..j] == buf[i..j]
  {
    var front := buf[..3] + [buf[3] % 16, buf[4], 0, 0, 0];
    SliceOfSum(front, buf[8..HEADER_LEN], i, j);
    SliceOfSlice(buf, 8, HEADER_LEN, i - 8, j - 8);
  }

  lemma NormalisedKeepsFields(buf: Bytes)
    requires |buf| >= HEADER_LEN
    ensures var s := Normalised(buf);
      SameFields(s, buf) && s[3] == buf[3] % 16 && s[5] == s[6] == s[7] == 0
  {
    assert Normalised(buf)[0..2] == buf[0..2];
    NormalisedSlice(buf, 8, 10);
    NormalisedSlice(buf, 10, 12);
    NormalisedSlice(buf, 12, 16);
    NormalisedSlice(buf, 16, 24);
    NormalisedSlice(buf, 24, 28);
  }

  /** Re-encoding a decoded header restores every byte that was not ignored. */
  lemma {:induction false} DecodeThenEncode(buf: Bytes)
    requires Decode(buf).Ok?
    ensures HeaderBytes(Decode(buf).value) == Normalised(buf)
  {
    NormalisedKeepsFields(buf);
    BeOnto(buf[0..2]);
    BeOnto(buf[8..10]);
    BeOnto(buf[10..12]);
    BeOnto(buf[12..16]);
    BeOnto(buf[16..24]);
    BeOnto(buf[24..28]);
    LaidOutIff(Normalised(buf), Decode(buf).value);
  }
}
