/** The phone's video: captured pictures are numbered, packed, sent, and arrive at every sink. */
module Video {
  import opened Common
  import opened Wire
  import opened MediaSocket
  import opened Nv12
  import opened Pipeline

  datatype Shot = Shot(y: Bytes, uv: Bytes, width: u16, height: u16, ptsUsec: u64, fullRange: bool)

  predicate WellSized(s: Shot) {
    |s.y| == s.width * s.height && |s.uv| == s.width * s.height / 2
  }

  /** The header's 32-bit length traps on a larger payload; a mis-sized picture never gets that far. */
  predicate Sendable(s: Shot) { WellSized(s) ==> |s.y| + |s.uv| <= U32_MAX }

  predicate AllSendable(shots: seq<Shot>) { forall i :: 0 <= i < |shots| ==> Sendable(shots[i]) }

  /** A picture the phone sends and the desktop refuses to read. */
  predicate Oversized(s: Shot) { WellSized(s) && |s.y| + |s.uv| > 16 * 1024 * 1024 }

  /** `&+= 1` on 32 bits. */
  function Next(n: u32): u32 { if n == U32_MAX then 0 else n + 1 }

  function Pack(s: Shot, seq32: u32): Result<MediaFrame, PlaneSizeMismatch>
    requires Sendable(s)
  {
    PackPlanes(s.y, s.uv, s.width, s.height, seq32, s.ptsUsec, s.fullRange)
  }

  class VideoSender {
    var mediaSeq: u32

    constructor ()
      ensures mediaSeq == 0
    {
      mediaSeq := 0;
    }

    /** A picture of the wrong size is refused, but has used up its number. */
    method SendCaptured(s: Shot, stream: MediaStream) returns (ok: bool)
      requires Sendable(s)
      modifies this, stream`writer
      ensures mediaSeq == Next(old(mediaSeq)) && (ok <==> WellSized(s))
      ensures stream.writer == old(stream.writer)
        + if WellSized(s) then Record(Pack(s, mediaSeq).value) else []
    {
      mediaSeq := Next(mediaSeq);
      var packed := Pack(s, mediaSeq);
      ok := packed.Ok?;
      if ok {
        var header := EncodeSwift(packed.value.header);
        stream.writer := stream.writer + (header[..] + packed.value.payload);
      }
    }

    /** The capture callback, once per picture. */
    method SendAll(shots: seq<Shot>, stream: MediaStream)
      requires mediaSeq == 0 && AllSendable(shots)
      modifies this, stream`writer
      ensures mediaSeq == |shots| % TWO32
      ensures stream.writer == old(stream.writer) + Records(Sent(shots))
    {
      ghost var before := stream.writer;
      assert before + [] == before;
      for i := 0 to |shots|
        invariant mediaSeq == i % TWO32
        invariant stream.writer == before + Records(Sent(shots[..i]))
      {
        NextCounts(i);
        SentBytes(shots, i, before);
        var ok := SendCaptured(shots[i], stream);
      }
      assert shots[..|shots|] == shots;
    }
  }

  // -------------------------------------------------------- what is sent

  const TWO32 := U32_MAX + 1

  lemma NextCounts(n: nat)
    ensures Next(n % TWO32) == (n + 1) % TWO32
  {
  }

  /** The record of the `n`-th picture: none if it is mis-sized. */
  function SentOne(s: Shot, n: nat): (fs: seq<MediaFrame>)
    requires Sendable(s)
    ensures |fs| == if WellSized(s) then 1 else 0
  {
    if WellSized(s) then [Pack(s, n % TWO32).value] else []
  }

  function Sent(shots: seq<Shot>): seq<MediaFrame>
    requires AllSendable(shots)
  {
    if shots == [] then [] else Sent(shots[..|shots| - 1]) + SentOne(shots[|shots| - 1], |shots|)
  }

  lemma SentSnoc(shots: seq<Shot>, i: nat)
    requires i < |shots| && AllSendable(shots)
    ensures Sent(shots[..i + 1]) == Sent(shots[..i]) + SentOne(shots[i], i + 1)
  {
    assert shots[..i + 1][..i] == shots[..i];
  }

  lemma SentBytes(shots: seq<Shot>, i: nat, before: Bytes)
    requires i < |shots| && AllSendable(shots)
    ensures before + Records(Sent(shots[..i + 1]))
      == before + Records(Sent(shots[..i]))
         + if WellSized(shots[i]) then Record(Pack(shots[i], (i + 1) % TWO32).value) else []
  {
    SentSnoc(shots, i);
    var fs := Sent(shots[..i]);
    if WellSized(shots[i]) {
      var f := Pack(shots[i], (i + 1) % TWO32).value;
      RecordsSnoc(fs, f);
      Regroup(before, Records(fs), Record(f));
    } else {
      assert fs + [] == fs;
    }
  }

  // --------------------------------------------------------- what is read

  /** How many pictures come before the first oversized one. */
  function Cut(shots: seq<Shot>): (n: nat)
    ensures n <= |shots|
  {
    if shots == [] then 0
    else
      var n := Cut(shots[..|shots| - 1]);
      if n < |shots| - 1 || Oversized(shots[|shots| - 1]) then n else |shots|
  }

  lemma {:induction false} CutIs(shots: seq<Shot>)
    ensures forall i :: 0 <= i < Cut(shots) ==> !Oversized(shots[i])
    ensures Cut(shots) < |shots| ==> Oversized(shots[Cut(shots)])
  {
    if shots != [] {
      CutIs(shots[..|shots| - 1]);
    }
  }

  lemma OneReadable(s: Shot, n: nat)
    requires Sendable(s) && WellSized(s)
    ensures Readable(Pack(s, n % TWO32).value) <==> !Oversized(s)
  {
  }

  lemma {:induction false} SentReadable(shots: seq<Shot>)
    requires AllSendable(shots) && forall i :: 0 <= i < |shots| ==> !Oversized(shots[i])
    ensures AllReadable(Sent(shots))
  {
    if shots != [] {
      SentReadable(shots[..|shots| - 1]);
      if WellSized(shots[|shots| - 1]) {
        OneReadable(shots[|shots| - 1], |shots|);
      }
    }
  }

  /** The later records follow the earlier ones. */
  lemma {:induction false} SentSplit(shots: seq<Shot>, n: nat) returns (rest: seq<MediaFrame>)
    requires AllSendable(shots) && n <= |shots|
    ensures Sent(shots) == Sent(shots[..n]) + rest
  {
    if n == |shots| {
      rest := [];
      assert shots[..n] == shots;
    } else {
      var k := |shots| - 1;
      var more := SentSplit(shots[..k], n);
      assert shots[..k][..n] == shots[..n];
      rest := more + SentOne(shots[k], k + 1);
      assert Sent(shots[..n]) + more + SentOne(shots[k], k + 1) == Sent(shots[..n]) + rest;
    }
  }

  /** An oversized picture ends the reading: nothing after its header is looked at. */
  lemma OversizedStops(s: Shot, n: nat, rest: Bytes)
    requires Sendable(s) && Oversized(s)
    ensures Yields(Record(Pack(s, n % TWO32).value) + rest, [], PayloadTooLarge(|s.y| + |s.uv|))
  {
    var f := Pack(s, n % TWO32).value;
    var input := Record(f) + rest;
    HeaderRoundTrip(f.header, []);
    assert HeaderBytes(f.header) + [] == HeaderBytes(f.header);
    assert input[..HEADER_LEN] == HeaderBytes(f.header);
  }

  function Stop(shots: seq<Shot>): ReadError {
    var n := Cut(shots);
    if n < |shots| then PayloadTooLarge(|shots[n].y| + |shots[n].uv|) else Eof
  }

  /** What the phone puts on the wire for a sequence of pictures, as `SendAll` writes it. */
  predicate Carries(wire: Bytes, shots: seq<Shot>)
    requires AllSendable(shots)
  {
    wire == Records(Sent(shots))
  }

  /**
   * For every sequence of pictures: the desktop reads the records of exactly those before the first
   * oversized one, and stops there with an error, or at the end of the stream.
   */
  lemma ReadsUntilOversized(shots: seq<Shot>, wire: Bytes)
    requires AllSendable(shots) && Carries(wire, shots)
    ensures Yields(wire, Sent(shots[..Cut(shots)]), Stop(shots))
  {
    CutIs(shots);
    SentReadable(shots[..Cut(shots)]);
    ReadsUpTo(shots, Cut(shots), Sent(shots[..Cut(shots)]), wire);
  }

  lemma ReadsUpTo(shots: seq<Shot>, n: nat, seen: seq<MediaFrame>, wire: Bytes)
    requires AllSendable(shots) && Carries(wire, shots)
    requires n <= |shots| && (n < |shots| ==> Oversized(shots[n]))
    requires seen == Sent(shots[..n]) && AllReadable(seen)
    ensures Yields(wire, seen, if n < |shots| then PayloadTooLarge(|shots[n].y| + |shots[n].uv|) else Eof)
  {
    if n < |shots| {
      StopsEarly(shots, n, seen, wire);
    } else {
      assert shots[..n] == shots;
      ReadAllRecords(seen);
    }
  }

  lemma StopsEarly(shots: seq<Shot>, n: nat, seen: seq<MediaFrame>, wire: Bytes)
    requires AllSendable(shots) && Carries(wire, shots) && n < |shots| && Oversized(shots[n])
    requires seen == Sent(shots[..n]) && AllReadable(seen)
    ensures Yields(wire, seen, PayloadTooLarge(|shots[n].y| + |shots[n].uv|))
  {
    var rest := SentAround(shots, n);
    StopsAt(Sent(shots), seen, rest, shots[n], n + 1);
  }

  lemma SentAround(shots: seq<Shot>, n: nat) returns (rest: seq<MediaFrame>)
    requires AllSendable(shots) && n < |shots| && WellSized(shots[n])
    ensures Sent(shots) == Sent(shots[..n]) + [Pack(shots[n], (n + 1) % TWO32).value] + rest
  {
    rest := SentSplit(shots, n + 1);
    SentSnoc(shots, n);
  }

  lemma StopsAt(all: seq<MediaFrame>, fs: seq<MediaFrame>, rest: seq<MediaFrame>, s: Shot, n: nat)
    requires AllReadable(fs) && Sendable(s) && Oversized(s)
    requires all == fs + [Pack(s, n % TWO32).value] + rest
    ensures Yields(Records(all), fs, PayloadTooLarge(|s.y| + |s.uv|))
  {
    var big := Record(Pack(s, n % TWO32).value);
    RecordsAround(all, fs, Pack(s, n % TWO32).value, rest);
    ReadAllPrefix(fs, big + Records(rest));
    OversizedStops(s, n, Records(rest));
  }

  lemma RecordsAround(all: seq<MediaFrame>, fs: seq<MediaFrame>, f: MediaFrame, rest: seq<MediaFrame>)
    requires all == fs + [f] + rest
    ensures Records(all) == Records(fs) + (Record(f) + Records(rest))
  {
    RecordsConcat(fs + [f], rest);
    RecordsSnoc(fs, f);
    Regroup(Records(fs), Record(f), Records(rest));
  }

  // -------------------------------------------------------- what is shown

  /** What a sink should be given for the `n`-th picture. */
  function Picture(s: Shot, n: nat): Frame {
    Frame(s.width, s.height, s.ptsUsec, n % TWO32, RawCodec, Planes(s.y, s.uv), s.fullRange)
  }

  predicate LooksLikeMarker(n: nat) { n % TWO32 >= 4_294_901_760 }

  /** Every well-sized picture, in order, each numbered by its position; or only those no marker hides. */
  function Pictures(shots: seq<Shot>, hideMarkers: bool): seq<Frame> {
    if shots == [] then []
    else
      var s, n := shots[|shots| - 1], |shots|;
      Pictures(shots[..n - 1], hideMarkers)
      + if WellSized(s) && !(hideMarkers && LooksLikeMarker(n)) then [Picture(s, n)] else []
  }

  /** Some well-sized picture has a number in the marker range. */
  predicate AnyMistaken(shots: seq<Shot>) {
    shots != [] && (AnyMistaken(shots[..|shots| - 1]) || (WellSized(shots[|shots| - 1]) && LooksLikeMarker(|shots|)))
  }

  lemma OnePicture(s: Shot, n: nat, decode: Decoder)
    requires WellSized(s) && Sendable(s)
    ensures var f := Pack(s, n % TWO32).value;
      && ShownOne(f, decode) == (if LooksLikeMarker(n) then [] else [Picture(s, n)])
      && (ArrivalsOne(f) == [] <==> !LooksLikeMarker(n))
  {
    SplitUndoesPack(s.y, s.uv, s.width, s.height);
  }

  lemma LastShown(fs: seq<MediaFrame>, f: MediaFrame, decode: Decoder)
    ensures Shown(fs + [f], decode) == Shown(fs, decode) + ShownOne(f, decode)
    ensures Arrivals(fs + [f]) == Arrivals(fs) + ArrivalsOne(f)
  {
    assert (fs + [f])[..|fs|] == fs;
  }

  lemma {:induction false} SentIsShown(shots: seq<Shot>, decode: Decoder)
    requires AllSendable(shots)
    ensures Shown(Sent(shots), decode) == Pictures(shots, true)
    ensures Arrivals(Sent(shots)) != [] <==> AnyMistaken(shots)
  {
    if shots != [] {
      SentIsShown(shots[..|shots| - 1], decode);
      LastIsShown(shots, decode);
    }
  }

  lemma LastIsShown(shots: seq<Shot>, decode: Decoder)
    requires shots != [] && AllSendable(shots)
    ensures var s, n, before := shots[|shots| - 1], |shots|, Sent(shots[..|shots| - 1]);
      && Shown(Sent(shots), decode)
         == Shown(before, decode) + (if WellSized(s) && !LooksLikeMarker(n) then [Picture(s, n)] else [])
      && (Arrivals(Sent(shots)) != [] <==> Arrivals(before) != [] || (WellSized(s) && LooksLikeMarker(n)))
  {
    var s, n, before := shots[|shots| - 1], |shots|, Sent(shots[..|shots| - 1]);
    if WellSized(s) {
      LastShown(before, Pack(s, n % TWO32).value, decode);
      OnePicture(s, n, decode);
    } else {
      assert Sent(shots) == before;
    }
  }

  /**
   * From capture callback to screen, for every sequence of pictures: a sink gets exactly the well-sized
   * ones before the first oversized one, whole and in order, each numbered by its position, less those
   * whose number has run into the marker range; and exactly those are counted as speedtest traffic.
   */
  lemma PicturesArrive(shots: seq<Shot>, wire: Bytes, decode: Decoder)
    requires AllSendable(shots) && Carries(wire, shots)
    ensures var read, seen := ReadAll(wire), shots[..Cut(shots)];
      && read.stop == Stop(shots)
      && Shown(read.frames, decode) == Pictures(seen, true)
      && (Arrivals(read.frames) != [] <==> AnyMistaken(seen))
  {
    ReadsUntilOversized(shots, wire);
    SentIsShown(shots[..Cut(shots)], decode);
  }

  lemma {:induction false} HidingLoses(shots: seq<Shot>)
    ensures |Pictures(shots, true)| <= |Pictures(shots, false)|
    ensures if AnyMistaken(shots) then |Pictures(shots, true)| < |Pictures(shots, false)|
            else Pictures(shots, true) == Pictures(shots, false)
  {
    if shots != [] {
      HidingLoses(shots[..|shots| - 1]);
    }
  }

  lemma {:induction false} CuttingLoses(shots: seq<Shot>, n: nat)
    requires n <= |shots|
    ensures |Pictures(shots[..n], false)| <= |Pictures(shots, false)|
    ensures n < |shots| && WellSized(shots[n]) ==> |Pictures(shots[..n], false)| < |Pictures(shots, false)|
  {
    if n == |shots| {
      assert shots[..n] == shots;
    } else {
      var prefix := shots[..|shots| - 1];
      CuttingLoses(prefix, n);
      assert prefix[..n] == shots[..n];
    }
  }

  /**
   * Every well-sized picture arrives exactly when none exceeds the cap and none has a number in the
   * marker range.
   */
  lemma AllArriveIff(shots: seq<Shot>, wire: Bytes, decode: Decoder)
    requires AllSendable(shots) && Carries(wire, shots)
    ensures Shown(ReadAll(wire).frames, decode) == Pictures(shots, false)
      <==> (forall i :: 0 <= i < |shots| ==> !Oversized(shots[i])) && !AnyMistaken(shots)
  {
    PicturesArrive(shots, wire, decode);
    var n := Cut(shots);
    CutIs(shots);
    HidingLoses(shots[..n]);
    CuttingLoses(shots, n);
    assert n == |shots| <==> forall i :: 0 <= i < |shots| ==> !Oversized(shots[i]);
    if n == |shots| {
      assert shots[..n] == shots;
    }
  }

  /** If all are well-sized, the first to be mistaken for a marker is the 4294901760th. */
  lemma {:induction false} MistakenIff(shots: seq<Shot>)
    requires forall i :: 0 <= i < |shots| ==> WellSized(shots[i])
    ensures AnyMistaken(shots) <==> |shots| >= 4_294_901_760
  {
    if shots != [] {
      MistakenIff(shots[..|shots| - 1]);
    }
  }
}
