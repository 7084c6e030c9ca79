/** The media pump: speedtest markers go to a counter, everything else to the sinks. */
module Pipeline {
  import opened Common
  import opened Wire
  import opened MediaSocket
  import opened Nv12

  const SPEEDTEST_SEQ_BASE := 0xFFFF_0000

  predicate IsMarker(f: MediaFrame) { f.header.seq32 >= SPEEDTEST_SEQ_BASE }

  function StepIndex(f: MediaFrame): u32
    requires IsMarker(f)
  {
    f.header.seq32 - SPEEDTEST_SEQ_BASE
  }

  datatype Arrival = Arrival(stepIndex: u32, payloadBytes: nat)

  datatype Frame = Frame(
    width: u16, height: u16, ptsUsec: u64, seq32: u32, codec: Codec, planes: Planes, fullRange: bool)

  /** A decoder answers an encoded frame with a picture, or with nothing for a configuration frame. */
  type Decoder = MediaFrame -> Option<Frame>

  function Ingest(f: MediaFrame, decode: Decoder): Option<Frame> {
    var h := f.header;
    if h.codec != RawCodec then decode(f)
    else
      match SplitNv12(f.payload, h.width, h.height)
      case Err(_) => None
      case Ok(planes) =>
        Some(Frame(h.width, h.height, h.ptsUsec, h.seq32, RawCodec, planes, h.flags / FULL_RANGE % 2 == 1))
  }

  class SpeedTestCounter {
    var inner: seq<Arrival>

    constructor ()
      ensures inner == []
    {
      inner := [];
    }

    method Record(a: Arrival)
      modifies this
      ensures inner == old(inner) + [a]
    {
      inner := inner + [a];
    }

    method BytesForStep(step: u32) returns (bytes: nat)
      ensures bytes == BytesFor(inner, step)
    {
      bytes := 0;
      for i := 0 to |inner|
        invariant bytes == BytesFor(inner[..i], step)
      {
        assert inner[..i + 1][..i] == inner[..i];
        if inner[i].stepIndex == step {
          bytes := bytes + inner[i].payloadBytes;
        }
      }
      assert inner[..|inner|] == inner;
    }

    method Drain() returns (all: seq<Arrival>)
      modifies this
      ensures all == old(inner) && inner == []
    {
      all := inner;
      inner := [];
    }
  }

  /** The registered sinks: `inboxes[i]` is what sink `i` has been given. */
  class Sinks {
    var inboxes: seq<seq<Frame>>

    constructor (count: nat)
      ensures inboxes == seq(count, _ => [])
    {
      inboxes := seq(count, _ => []);
    }

    method Submit(f: Frame)
      modifies this
      ensures inboxes == Append(old(inboxes), [f])
    {
      for i := 0 to |inboxes|
        invariant |inboxes| == |old(inboxes)|
        invariant forall k :: 0 <= k < i ==> inboxes[k] == old(inboxes)[k] + [f]
        invariant forall k :: i <= k < |inboxes| ==> inboxes[k] == old(inboxes)[k]
      {
        inboxes := inboxes[i := inboxes[i] + [f]];
      }
    }
  }

  function Append(inboxes: seq<seq<Frame>>, more: seq<Frame>): seq<seq<Frame>> {
    seq(|inboxes|, i requires 0 <= i < |inboxes| => inboxes[i] + more)
  }

  // ------------------------------------------------------------ what goes where

  function Arrivals(fs: seq<MediaFrame>): seq<Arrival> {
    if fs == [] then [] else Arrivals(fs[..|fs| - 1]) + ArrivalsOne(fs[|fs| - 1])
  }

  function ArrivalsOne(f: MediaFrame): seq<Arrival> {
    if IsMarker(f) then [Arrival(StepIndex(f), |f.payload|)] else []
  }

  function Shown(fs: seq<MediaFrame>, decode: Decoder): seq<Frame> {
    if fs == [] then [] else Shown(fs[..|fs| - 1], decode) + ShownOne(fs[|fs| - 1], decode)
  }

  function ShownOne(f: MediaFrame, decode: Decoder): seq<Frame> {
    if IsMarker(f) || Ingest(f, decode).None? then [] else [Ingest(f, decode).value]
  }

  function BytesFor(arrivals: seq<Arrival>, step: u32): nat {
    if arrivals == [] then 0
    else
      var a := arrivals[|arrivals| - 1];
      BytesFor(arrivals[..|arrivals| - 1], step) + if a.stepIndex == step then a.payloadBytes else 0
  }

  method Handle(f: MediaFrame, sinks: Sinks, decode: Decoder, counter: SpeedTestCounter?)
    modifies sinks, counter
    ensures sinks.inboxes == Append(old(sinks.inboxes), ShownOne(f, decode))
    ensures counter != null ==> counter.inner == old(counter.inner) + ArrivalsOne(f)
  {
    AppendNothing(sinks.inboxes);
    if IsMarker(f) {
      if counter != null {
        counter.Record(Arrival(StepIndex(f), |f.payload|));
      }
      return;
    }
    var frame := Ingest(f, decode);
    if frame.Some? {
      sinks.Submit(frame.value);
    }
  }

  lemma AppendNothing(inboxes: seq<seq<Frame>>)
    ensures Append(inboxes, []) == inboxes
  {
    assert forall i :: 0 <= i < |inboxes| ==> Append(inboxes, [])[i] == inboxes[i];
  }

  lemma AppendTwice(inboxes: seq<seq<Frame>>, a: seq<Frame>, b: seq<Frame>)
    ensures Append(Append(inboxes, a), b) == Append(inboxes, a + b)
  {
    var l, r := Append(Append(inboxes, a), b), Append(inboxes, a + b);
    forall i | 0 <= i < |inboxes| ensures l[i] == r[i] {
      assert inboxes[i] + a + b == inboxes[i] + (a + b);
    }
  }

  /** One turn of the pump. */
  method PumpOne(stream: MediaStream, sinks: Sinks, decode: Decoder, counter: SpeedTestCounter?)
      returns (more: bool)
    modifies stream`reader, sinks, counter
    ensures match ReadRecord(old(stream.reader))
      case Err(_) =>
        !more && sinks.inboxes == old(sinks.inboxes) && (counter != null ==> counter.inner == old(counter.inner))
      case Ok(got) =>
        && more && stream.reader == got.rest
        && sinks.inboxes == Append(old(sinks.inboxes), ShownOne(got.value, decode))
        && (counter != null ==> counter.inner == old(counter.inner) + ArrivalsOne(got.value))
  {
    var r := ReadMediaFrame(stream);
    if r.Err? {
      return false;
    }
    Handle(r.value, sinks, decode, counter);
    more := true;
  }

  /** Reads until the socket fails, then stops; a frame that cannot be ingested is skipped. */
  method Pump(stream: MediaStream, sinks: Sinks, decode: Decoder, counter: SpeedTestCounter?)
    modifies stream`reader, sinks, counter
    ensures sinks.inboxes == Append(old(sinks.inboxes), Shown(ReadAll(old(stream.reader)).frames, decode))
    ensures counter != null ==>
      counter.inner == old(counter.inner) + Arrivals(ReadAll(old(stream.reader)).frames)
  {
    ghost var all := ReadAll(stream.reader).frames;
    ghost var read: seq<MediaFrame> := [];
    AppendNothing(sinks.inboxes);
    assert counter != null ==> counter.inner == counter.inner + [];
    assert all == [] + all;
    var more := true;
    while more
      invariant if more then all == read + ReadAll(stream.reader).frames else all == read
      invariant sinks.inboxes == Append(old(sinks.inboxes), Shown(read, decode))
      invariant counter != null ==> counter.inner == old(counter.inner) + Arrivals(read)
      decreases more, |stream.reader|
    {
      ghost var next := ReadRecord(stream.reader);
      ReadAllUnfold(stream.reader);
      assert next.Err? ==> read + [] == read;
      more := PumpOne(stream, sinks, decode, counter);
      if more {
        ghost var f := next.value.value;
        ReadOneMore(read, f, decode, old(sinks.inboxes));
        Reassociate(read, f, ReadAll(stream.reader).frames);
        read := read + [f];
      }
    }
  }

  lemma Reassociate(a: seq<MediaFrame>, f: MediaFrame, b: seq<MediaFrame>)
    ensures a + ([f] + b) == a + [f] + b
  {
  }

  lemma ReadOneMore(read: seq<MediaFrame>, f: MediaFrame, decode: Decoder, inboxes: seq<seq<Frame>>)
    ensures Append(Append(inboxes, Shown(read, decode)), ShownOne(f, decode))
         == Append(inboxes, Shown(read + [f], decode))
    ensures Arrivals(read + [f]) == Arrivals(read) + ArrivalsOne(f)
  {
    assert (read + [f])[..|read|] == read;
    AppendTwice(inboxes, Shown(read, decode), ShownOne(f, decode));
  }

  lemma ReadAllUnfold(input: Bytes)
    ensures match ReadRecord(input)
      case Err(_) => ReadAll(input).frames == []
      case Ok(got) => ReadAll(input).frames == [got.value] + ReadAll(got.rest).frames
  {
  }

  // ------------------------------------------------------- non-interference

  function Keep(fs: seq<MediaFrame>, markers: bool): seq<MediaFrame> {
    if fs == [] then []
    else Keep(fs[..|fs| - 1], markers) + if IsMarker(fs[|fs| - 1]) == markers then [fs[|fs| - 1]] else []
  }

  /**
   * However video and markers interleave, the sinks see what they would see without the markers and
   * the counter what it would count without the video.
   */
  lemma {:induction false} MarkersAndVideoAreSeparate(fs: seq<MediaFrame>, decode: Decoder)
    ensures Shown(fs, decode) == Shown(Keep(fs, false), decode)
    ensures Arrivals(fs) == Arrivals(Keep(fs, true))
    ensures Arrivals(Keep(fs, false)) == [] && Shown(Keep(fs, true), decode) == []
  {
    if fs != [] {
      var prefix, f := fs[..|fs| - 1], fs[|fs| - 1];
      MarkersAndVideoAreSeparate(prefix, decode);
      var kept := Keep(prefix, IsMarker(f));
      assert Keep(fs, IsMarker(f)) == kept + [f];
      assert (kept + [f])[..|kept|] == kept;
      assert Keep(fs, !IsMarker(f)) == Keep(prefix, !IsMarker(f));
    }
  }

  /** The picture a frame should show: the decoder's answer, or the planes of a raw payload that fits. */
  function PictureOf(f: MediaFrame, decode: Decoder): Option<Frame> {
    var h := f.header;
    if h.codec == HevcCodec || h.codec == H264Codec then decode(f)
    else
      var luma: nat := h.width * h.height;
      if |f.payload| != luma + luma / 2 then None
      else
        Some(Frame(h.width, h.height, h.ptsUsec, h.seq32, RawCodec,
                   Planes(f.payload[..luma], f.payload[luma..]), h.flags / 4 % 2 == 1))
  }

  /** The pictures of the frames numbered below the marker range. */
  function PicturesOf(fs: seq<MediaFrame>, decode: Decoder): seq<Frame> {
    if fs == [] then []
    else
      var f := fs[|fs| - 1];
      PicturesOf(fs[..|fs| - 1], decode)
      + if f.header.seq32 < 4_294_901_760 && PictureOf(f, decode).Some? then [PictureOf(f, decode).value] else []
  }

  /** The step and size of the frames numbered in it. */
  function MarkersOf(fs: seq<MediaFrame>): seq<Arrival> {
    if fs == [] then []
    else
      var f := fs[|fs| - 1];
      MarkersOf(fs[..|fs| - 1])
      + if f.header.seq32 < 4_294_901_760 then [] else [Arrival(f.header.seq32 - 4_294_901_760, |f.payload|)]
  }

  lemma {:induction false} ShownArePictures(fs: seq<MediaFrame>, decode: Decoder)
    ensures Shown(fs, decode) == PicturesOf(fs, decode) && Arrivals(fs) == MarkersOf(fs)
  {
    if fs != [] {
      ShownArePictures(fs[..|fs| - 1], decode);
      OneIsPicture(fs[|fs| - 1], decode);
    }
  }

  lemma OneIsPicture(f: MediaFrame, decode: Decoder)
    ensures ShownOne(f, decode)
      == if f.header.seq32 < 4_294_901_760 && PictureOf(f, decode).Some? then [PictureOf(f, decode).value] else []
    ensures ArrivalsOne(f)
      == if f.header.seq32 < 4_294_901_760 then [] else [Arrival(f.header.seq32 - 4_294_901_760, |f.payload|)]
  {
  }

  /**
   * From the bytes on the socket: of any mix of readable records, encoded or raw, video or markers, the
   * sinks get exactly the decoder's pictures and the well-sized raw ones, in order, and the counter
   * exactly the markers.
   */
  lemma RecordsArrive(fs: seq<MediaFrame>, wire: Bytes, decode: Decoder)
    requires AllReadable(fs) && wire == Records(fs)
    ensures Shown(ReadAll(wire).frames, decode) == PicturesOf(fs, decode)
    ensures Arrivals(ReadAll(wire).frames) == MarkersOf(fs)
  {
    ReadAllRecords(fs);
    ShownArePictures(fs, decode);
  }

  function Answers(fs: seq<MediaFrame>, decode: Decoder): seq<Frame> {
    if fs == [] then []
    else
      Answers(fs[..|fs| - 1], decode)
      + match decode(fs[|fs| - 1]) case None => [] case Some(picture) => [picture]
  }

  /** In particular, an encoded stream shows exactly what the decoder answers, and counts nothing. */
  lemma {:induction false} EncodedVideoArrives(fs: seq<MediaFrame>, wire: Bytes, decode: Decoder)
    requires AllReadable(fs) && wire == Records(fs)
    requires forall i :: 0 <= i < |fs| ==>
      fs[i].header.seq32 < 4_294_901_760 && (fs[i].header.codec == HevcCodec || fs[i].header.codec == H264Codec)
    ensures Shown(ReadAll(wire).frames, decode) == Answers(fs, decode) && Arrivals(ReadAll(wire).frames) == []
  {
    RecordsArrive(fs, wire, decode);
    EncodedPictures(fs, decode);
  }

  lemma {:induction false} EncodedPictures(fs: seq<MediaFrame>, decode: Decoder)
    requires forall i :: 0 <= i < |fs| ==>
      fs[i].header.seq32 < 4_294_901_760 && (fs[i].header.codec == HevcCodec || fs[i].header.codec == H264Codec)
    ensures PicturesOf(fs, decode) == Answers(fs, decode) && MarkersOf(fs) == []
  {
    if fs != [] {
      EncodedPictures(fs[..|fs| - 1], decode);
    }
  }

  /** Everything a sink receives came from a frame that is not a marker. */
  lemma {:induction false} SinksSeeOnlyVideo(fs: seq<MediaFrame>, decode: Decoder, shown: Frame)
    requires shown in Shown(fs, decode)
    ensures exists f :: f in fs && !IsMarker(f) && Ingest(f, decode) == Some(shown)
  {
    var prefix, f := fs[..|fs| - 1], fs[|fs| - 1];
    if shown in ShownOne(f, decode) {
      assert f in fs;
    } else {
      SinksSeeOnlyVideo(prefix, decode, shown);
      var g :| g in prefix && !IsMarker(g) && Ingest(g, decode) == Some(shown);
      assert g in fs;
    }
  }

  lemma {:induction false} BytesForConcat(a: seq<Arrival>, b: seq<Arrival>, step: u32)
    ensures BytesFor(a + b, step) == BytesFor(a, step) + BytesFor(b, step)
  {
    if b == [] {
      assert a + b == a;
    } else {
      assert (a + b)[..|a + b| - 1] == a + b[..|b| - 1];
      BytesForConcat(a, b[..|b| - 1], step);
    }
  }
}
