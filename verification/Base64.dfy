/** Unpadded URL-safe base 64 (section 5 of RFC 4648), which turns random bytes into tokens. */
module Base64 {
  import opened Common
  import opened Wire

  /** The alphabet, in the order of its values: A to Z, a to z, 0 to 9, hyphen, underscore. */
  predicate InAlphabet(c: char) {
    'A' <= c <= 'Z' || 'a' <= c <= 'z' || '0' <= c <= '9' || c == '-' || c == '_'
  }

  function Value(c: char): (v: nat)
    ensures v < 64
  {
    if 'A' <= c <= 'Z' then c as int - 'A' as int
    else if 'a' <= c <= 'z' then c as int - 'a' as int + 26
    else if '0' <= c <= '9' then c as int - '0' as int + 52
    else if c == '-' then 62
    else 63
  }

  function Letter(v: nat): (c: char)
    requires v < 64
    ensures InAlphabet(c) && Value(c) == v
  {
    if v < 26 then ('A' as int + v) as char
    else if v < 52 then ('a' as int + v - 26) as char
    else if v < 62 then ('0' as int + v - 52) as char
    else if v == 62 then '-'
    else '_'
  }

  /**
   * The alphabet of the standard: four landmarks fix each run of letters and digits, along which the
   * characters count up.
   */
  lemma LettersAreStandard(v: nat)
    requires v < 64
    ensures Letter(0) == 'A' && Letter(25) == 'Z' && Letter(26) == 'a' && Letter(51) == 'z'
    ensures Letter(52) == '0' && Letter(61) == '9' && Letter(62) == '-' && Letter(63) == '_'
    ensures v !in {25, 51, 61, 62, 63} ==> Letter(v + 1) as int == Letter(v) as int + 1
  {
  }

  function Pack24(a: nat, b: nat, c: nat): nat { a * 0x1_0000 + b * 0x100 + c }

  /** The `k`-th group of six bits, most significant first. */
  function Sextet(n: nat, k: nat): (v: nat)
    requires k < 4
    ensures v < 64
  {
    if k == 0 then n / 0x4_0000 % 64
    else if k == 1 then n / 0x1000 % 64
    else if k == 2 then n / 0x40 % 64
    else n % 64
  }

  lemma SixBits(q: nat, r: nat)
    requires r < 64
    ensures (64 * q + r) % 64 == r
  {
  }

  /** Which bits of the three bytes each group holds. */
  lemma SextetsAre(a: byte, b: byte, c: byte)
    ensures var n := Pack24(a, b, c);
      && Sextet(n, 0) == a / 4
      && Sextet(n, 1) == a % 4 * 16 + b / 16
      && Sextet(n, 2) == b % 16 * 4 + c / 64
      && Sextet(n, 3) == c % 64
  {
    var n := Pack24(a, b, c);
    QuotientIs(n, 0x4_0000, a / 4, a % 4 * 0x1_0000 + b * 0x100 + c);
    QuotientIs(n, 0x1000, a * 16 + b / 16, b % 16 * 0x100 + c);
    QuotientIs(n, 0x40, a * 0x400 + b * 4 + c / 64, c % 64);
    SixBits(a / 4, a % 4 * 16 + b / 16);
    SixBits(a * 16 + b / 16, b % 16 * 4 + c / 64);
    SixBits(a * 0x400 + b * 4 + c / 64, c % 64);
  }

  function At(bs: seq<byte>, i: nat): byte { if i < |bs| then bs[i] else 0 }

  /** One to three bytes become two to four characters. */
  function Chunk(bs: seq<byte>): (s: string)
    requires 1 <= |bs| <= 3
    ensures |s| == |bs| + 1
  {
    var n := Pack24(At(bs, 0), At(bs, 1), At(bs, 2));
    [Letter(Sextet(n, 0)), Letter(Sextet(n, 1))]
    + (if |bs| > 1 then [Letter(Sextet(n, 2))] else [])
    + (if |bs| > 2 then [Letter(Sextet(n, 3))] else [])
  }

  function Encode(bs: seq<byte>): string {
    if bs == [] then "" else
      var k := Min(3, |bs|);
      Chunk(bs[..k]) + Encode(bs[k..])
  }

  lemma GroupAlone(bs: seq<byte>)
    requires 1 <= |bs| <= 3
    ensures Encode(bs) == Chunk(bs)
  {
    assert bs[..|bs|] == bs && bs[|bs|..] == [];
  }

  lemma ChunkIs(bs: seq<byte>, a: byte, b: byte, c: byte)
    requires 1 <= |bs| <= 3 && At(bs, 0) == a && At(bs, 1) == b && At(bs, 2) == c
    ensures var s := Chunk(bs);
      && s[0] == Letter(a / 4) && s[1] == Letter(a % 4 * 16 + b / 16)
      && (|bs| > 1 ==> s[2] == Letter(b % 16 * 4 + c / 64)) && (|bs| > 2 ==> s[3] == Letter(c % 64))
  {
    SextetsAre(a, b, c);
  }

  /** A group of three bytes: six bits a character, from the most significant end. */
  lemma GroupOfThree(a: byte, b: byte, c: byte)
    ensures Encode([a, b, c])
      == [Letter(a / 4), Letter(a % 4 * 16 + b / 16), Letter(b % 16 * 4 + c / 64), Letter(c % 64)]
  {
    GroupAlone([a, b, c]);
    ChunkIs([a, b, c], a, b, c);
  }

  /** Shorter groups at the end are filled up with zero bits and not padded. */
  lemma GroupOfTwo(a: byte, b: byte)
    ensures Encode([a, b]) == [Letter(a / 4), Letter(a % 4 * 16 + b / 16), Letter(b % 16 * 4)]
  {
    GroupAlone([a, b]);
    ChunkIs([a, b], a, b, 0);
  }

  lemma GroupOfOne(a: byte)
    ensures Encode([a]) == [Letter(a / 4), Letter(a % 4 * 16)]
  {
    GroupAlone([a]);
    ChunkIs([a], a, 0, 0);
  }

  method EncodeChunk(chunk: seq<byte>) returns (text: string)
    requires 1 <= |chunk| <= 3
    ensures text == Chunk(chunk)
  {
    var buf: seq<byte> := [0, 0, 0];
    for i := 0 to |chunk|
      invariant |buf| == 3 && forall j :: 0 <= j < 3 ==> buf[j] == if j < i then At(chunk, j) else 0
    {
      buf := buf[i := chunk[i]];
    }
    assert forall j :: 0 <= j < 3 ==> buf[j] == At(chunk, j);
    var n := Pack24(buf[0], buf[1], buf[2]);
    text := [Letter(Sextet(n, 0)), Letter(Sextet(n, 1))];
    if |chunk| > 1 {
      text := text + [Letter(Sextet(n, 2))];
    }
    if |chunk| > 2 {
      text := text + [Letter(Sextet(n, 3))];
    }
  }

  lemma EncodeStep(bs: seq<byte>, i: nat)
    requires i < |bs|
    ensures var end := Min(i + 3, |bs|); Encode(bs[i..]) == Chunk(bs[i..end]) + Encode(bs[end..])
  {
    var k, end := Min(3, |bs| - i), Min(i + 3, |bs|);
    assert bs[i..][..k] == bs[i..end] && bs[i..][k..] == bs[end..];
  }

  lemma Progress(bs: seq<byte>, i: nat, out: string)
    requires i < |bs|
    ensures var end := Min(i + 3, |bs|);
      out + Chunk(bs[i..end]) + Encode(bs[end..]) == out + Encode(bs[i..])
  {
    EncodeStep(bs, i);
    var end := Min(i + 3, |bs|);
    assert out + (Chunk(bs[i..end]) + Encode(bs[end..])) == out + Chunk(bs[i..end]) + Encode(bs[end..]);
  }

  method Base64Url(bytes: seq<byte>) returns (out: string)
    ensures out == Encode(bytes)
  {
    out := "";
    var i := 0;
    assert bytes[0..] == bytes;
    while i < |bytes|
      invariant i <= |bytes| && out + Encode(bytes[i..]) == Encode(bytes)
    {
      var end := Min(i + 3, |bytes|);
      var text := EncodeChunk(bytes[i..end]);
      Progress(bytes, i, out);
      out := out + text;
      i := end;
    }
  }

  // ------------------------------------------------------------- decoding

  function ValueAt(s: string, i: nat): (v: nat)
    ensures v < 64
  {
    if i < |s| then Value(s[i]) else 0 }

  function Byte0(v0: nat, v1: nat): byte
    requires v0 < 64 && v1 < 64
  {
    v0 * 4 + v1 / 16
  }

  function Byte1(v1: nat, v2: nat): byte
    requires v1 < 64 && v2 < 64
  {
    v1 % 16 * 16 + v2 / 4
  }

  function Byte2(v2: nat, v3: nat): byte
    requires v2 < 64 && v3 < 64
  {
    v2 % 4 * 64 + v3
  }

  /** Two to four characters stand for one to three bytes. */
  function Unchunk(s: string): seq<byte>
    requires 2 <= |s| <= 4
  {
    var v0, v1, v2, v3 := ValueAt(s, 0), ValueAt(s, 1), ValueAt(s, 2), ValueAt(s, 3);
    [Byte0(v0, v1), Byte1(v1, v2), Byte2(v2, v3)][..|s| - 1]
  }

  function Decode(s: string): Option<seq<byte>> {
    if s == "" then Some([])
    else if |s| == 1 then None
    else
      var k := Min(4, |s|);
      match Decode(s[k..])
      case None => None
      case Some(rest) => Some(Unchunk(s[..k]) + rest)
  }

  lemma BytesRebuild(a: byte, b: byte, c: byte)
    ensures var n := Pack24(a, b, c);
      && Byte0(Sextet(n, 0), Sextet(n, 1)) == a
      && Byte1(Sextet(n, 1), Sextet(n, 2)) == b
      && Byte2(Sextet(n, 2), Sextet(n, 3)) == c
  {
    SextetsAre(a, b, c);
  }

  lemma ChunkValues(bs: seq<byte>, k: nat)
    requires 1 <= |bs| <= 3 && k <= |bs|
    ensures ValueAt(Chunk(bs), k) == Sextet(Pack24(At(bs, 0), At(bs, 1), At(bs, 2)), k)
  {
  }

  lemma UnchunkChunk(bs: seq<byte>)
    requires 1 <= |bs| <= 3
    ensures Unchunk(Chunk(bs)) == bs
  {
    BytesRebuild(At(bs, 0), At(bs, 1), At(bs, 2));
    ChunkValues(bs, 0);
    ChunkValues(bs, 1);
    if |bs| > 1 {
      ChunkValues(bs, 2);
    }
    if |bs| > 2 {
      ChunkValues(bs, 3);
    }
  }

  lemma DecodeStep(head: string, rest: string)
    requires |head| == 4 || (2 <= |head| < 4 && rest == "")
    ensures Decode(head + rest) ==
      match Decode(rest) case None => None case Some(bs) => Some(Unchunk(head) + bs)
  {
    assert (head + rest)[..|head|] == head && (head + rest)[|head|..] == rest;
  }

  lemma {:induction false} DecodeEncode(bs: seq<byte>)
    ensures Decode(Encode(bs)) == Some(bs)
  {
    if bs != [] {
      var k := Min(3, |bs|);
      var head, rest := Chunk(bs[..k]), Encode(bs[k..]);
      DecodeEncode(bs[k..]);
      UnchunkChunk(bs[..k]);
      DecodeStep(head, rest);
      assert bs[..k] + bs[k..] == bs;
    }
  }

  /** Distinct bytes make distinct tokens. */
  lemma EncodeInjective(a: seq<byte>, b: seq<byte>)
    requires Encode(a) == Encode(b)
    ensures a == b
  {
    DecodeEncode(a);
    DecodeEncode(b);
  }

  /** A token needs no padding and no escaping: only URL-safe characters, four for every three bytes. */
  lemma {:induction false} TokenShape(bs: seq<byte>)
    ensures |Encode(bs)| == (4 * |bs| + 2) / 3
    ensures forall i :: 0 <= i < |Encode(bs)| ==> InAlphabet(Encode(bs)[i])
  {
    if bs != [] {
      TokenShape(bs[Min(3, |bs|)..]);
    }
  }
}
