/** The media socket: one length-prefixed JSON hello, then binary records. */
module MediaSocket {
  import opened Common
  import opened Protocol
  import opened Wire

  const MAX_FRAME_BYTES := 16 * 1024 * 1024

  datatype MediaFrame = MediaFrame(header: MediaHeader, payload: Bytes)

  datatype MediaBinding = MediaBinding(sessionId: string, token: string)

  /** `Incomplete` is a peer that closed, or stayed silent past the timeout, mid-message. */
  datatype HelloError = Incomplete | BadJson | NotMediaHello

  datatype ReadError = Eof | BadHeader(error: DecodeError) | PayloadTooLarge(len: nat)

  datatype Got<T> = Got(value: T, rest: Bytes)

  /** The JSON library: serialization is only assumed to be undone by parsing. */
  datatype Json = Json(encode: Envelope -> Bytes, decode: Bytes -> Option<Envelope>)

  ghost predicate Lawful(j: Json) {
    forall e :: j.decode(j.encode(e)) == Some(e)
  }

  /** One end of a socket: the bytes still to arrive, and the bytes written so far. */
  class MediaStream {
    var reader: Bytes
    var writer: Bytes

    constructor (incoming: Bytes)
      ensures reader == incoming && writer == []
    {
      reader, writer := incoming, [];
    }

    /** Blocks until `n` bytes arrived; at end of stream the partial bytes are gone. */
    method ReadExact(n: nat) returns (got: Option<Bytes>)
      modifies this`reader
      ensures |old(reader)| >= n ==> got == Some(old(reader)[..n]) && reader == old(reader)[n..]
      ensures |old(reader)| < n ==> got == None && reader == []
    {
      if |reader| < n {
        reader := [];
        return None;
      }
      got := Some(reader[..n]);
      reader := reader[n..];
    }
  }

  // ----------------------------------------------------------- media hello

  function HelloEnvelope(b: MediaBinding): Envelope {
    Envelope(0, None, MediaHello(b.sessionId, b.token))
  }

  /** The length is cast to 32 bits without a check. */
  function HelloBytes(j: Json, b: MediaBinding): Bytes {
    var json := j.encode(HelloEnvelope(b));
    ToBe(|json|, PREFIX_LEN) + json
  }

  function ParseHello(j: Json, body: Bytes): Result<MediaBinding, HelloError> {
    match j.decode(body)
    case None => Err(BadJson)
    case Some(env) =>
      match env.body
      case MediaHello(s, t) => Ok(MediaBinding(s, t))
      case _ => Err(NotMediaHello)
  }

  function ReadHello(j: Json, input: Bytes): Result<Got<MediaBinding>, HelloError> {
    if |input| < PREFIX_LEN then Err(Incomplete)
    else
      var end := PREFIX_LEN + FromBe(input[..PREFIX_LEN]);
      if |input| < end then Err(Incomplete)
      else
        match ParseHello(j, input[PREFIX_LEN..end])
        case Ok(b) => Ok(Got(b, input[end..]))
        case Err(e) => Err(e)
  }

  method ReadMediaHello(stream: MediaStream, j: Json) returns (r: Result<MediaBinding, HelloError>)
    modifies stream`reader
    ensures match ReadHello(j, old(stream.reader))
      case Ok(got) => r == Ok(got.value) && stream.reader == got.rest
      case Err(e) => r == Err(e)
  {
    ghost var input := stream.reader;
    var prefix := stream.ReadExact(PREFIX_LEN);
    if prefix.None? {
      return Err(Incomplete);
    }
    var len := FromBe(prefix.value);
    var body := stream.ReadExact(len);
    if body.None? {
      return Err(Incomplete);
    }
    assert input[PREFIX_LEN..][..len] == input[PREFIX_LEN..PREFIX_LEN + len];
    assert input[PREFIX_LEN..][len..] == input[PREFIX_LEN + len..];
    r := ParseHello(j, body.value);
  }

  method WriteMediaHello(stream: MediaStream, j: Json, b: MediaBinding)
    modifies stream`writer
    ensures stream.writer == old(stream.writer) + HelloBytes(j, b)
  {
    var json := j.encode(HelloEnvelope(b));
    stream.writer := stream.writer + ToBe(|json|, PREFIX_LEN);
    stream.writer := stream.writer + json;
  }

  lemma HelloRoundTrip(j: Json, b: MediaBinding, rest: Bytes)
    requires Lawful(j) && |j.encode(HelloEnvelope(b))| <= U32_MAX
    ensures ReadHello(j, HelloBytes(j, b) + rest) == Ok(Got(b, rest))
  {
    var json := j.encode(HelloEnvelope(b));
    var input := HelloBytes(j, b) + rest;
    PowersOf256();
    BeRoundTrip(|json|, PREFIX_LEN);
    assert input[..PREFIX_LEN] == ToBe(|json|, PREFIX_LEN);
    assert input[PREFIX_LEN..PREFIX_LEN + |json|] == json;
    assert input[PREFIX_LEN + |json|..] == rest;
  }

  /** A socket is bound exactly by a length prefix and the JSON of a MEDIA_HELLO with these two strings. */
  lemma HelloIsReadIff(j: Json, input: Bytes, b: MediaBinding)
    ensures (ReadHello(j, input).Ok? && ReadHello(j, input).value.value == b) <==>
      && |input| >= 4
      && var len := FromBe(input[..4]);
        && |input| >= 4 + len
        && var env := j.decode(input[4..4 + len]);
          env.Some? && env.value.body == MediaHello(b.sessionId, b.token)
    ensures ReadHello(j, input).Ok? ==> ReadHello(j, input).value.rest == input[4 + FromBe(input[..4])..]
  {
  }

  // --------------------------------------------------------------- records

  function Record(f: MediaFrame): Bytes { HeaderBytes(f.header) + f.payload }

  function Records(fs: seq<MediaFrame>): Bytes {
    if fs == [] then [] else Record(fs[0]) + Records(fs[1..])
  }

  lemma {:induction false} RecordsSnoc(fs: seq<MediaFrame>, f: MediaFrame)
    ensures Records(fs + [f]) == Records(fs) + Record(f)
  {
    if fs == [] {
      assert [f][1..] == [];
      assert Record(f) + [] == Record(f);
    } else {
      assert (fs + [f])[1..] == fs[1..] + [f];
      RecordsSnoc(fs[1..], f);
      Regroup(Record(fs[0]), Records(fs[1..]), Record(f));
    }
  }

  function ReadRecord(input: Bytes): (r: Result<Got<MediaFrame>, ReadError>)
    ensures r.Ok? ==> |r.value.rest| < |input|
  {
    if |input| < HEADER_LEN then Err(Eof)
    else
      match Decode(input[..HEADER_LEN])
      case Err(e) => Err(BadHeader(e))
      case Ok(h) =>
        var end := HEADER_LEN + h.payloadLen;
        if h.payloadLen > MAX_FRAME_BYTES then Err(PayloadTooLarge(h.payloadLen))
        else if |input| < end then Err(Eof)
        else Ok(Got(MediaFrame(h, input[HEADER_LEN..end]), input[end..]))
  }

  method ReadMediaFrame(stream: MediaStream) returns (r: Result<MediaFrame, ReadError>)
    modifies stream`reader
    ensures match ReadRecord(old(stream.reader))
      case Ok(got) => r == Ok(got.value) && stream.reader == got.rest
      case Err(e) => r == Err(e)
  {
    ghost var input := stream.reader;
    var head := stream.ReadExact(HEADER_LEN);
    if head.None? {
      return Err(Eof);
    }
    var decoded := Decode(head.value);
    if decoded.Err? {
      return Err(BadHeader(decoded.error));
    }
    var h := decoded.value;
    if h.payloadLen > MAX_FRAME_BYTES {
      return Err(PayloadTooLarge(h.payloadLen));
    }
    var payload := stream.ReadExact(h.payloadLen);
    if payload.None? {
      return Err(Eof);
    }
    assert input[HEADER_LEN..][..h.payloadLen] == input[HEADER_LEN..HEADER_LEN + h.payloadLen];
    assert input[HEADER_LEN..][h.payloadLen..] == input[HEADER_LEN + h.payloadLen..];
    r := Ok(MediaFrame(h, payload.value));
  }

  method WriteMediaFrame(stream: MediaStream, header: MediaHeader, payload: Bytes)
    modifies stream`writer
    ensures stream.writer == old(stream.writer) + Record(MediaFrame(header, payload))
  {
    var hdr := EncodeRust(header);
    stream.writer := stream.writer + hdr[..];
    stream.writer := stream.writer + payload;
  }

  /** A phone's whole media socket: the hello, then frame after frame. */
  method WriteSession(stream: MediaStream, j: Json, b: MediaBinding, fs: seq<MediaFrame>)
    modifies stream`writer
    ensures stream.writer == old(stream.writer) + HelloBytes(j, b) + Records(fs)
  {
    WriteMediaHello(stream, j, b);
    ghost var hello := stream.writer;
    assert hello == hello + Records([]);
    for i := 0 to |fs|
      invariant stream.writer == hello + Records(fs[..i])
    {
      WriteMediaFrame(stream, fs[i].header, fs[i].payload);
      OneMoreRecord(hello, fs, i);
    }
    assert fs[..|fs|] == fs;
  }

  lemma OneMoreRecord(before: Bytes, fs: seq<MediaFrame>, i: nat)
    requires i < |fs|
    ensures before + Records(fs[..i + 1]) == before + Records(fs[..i]) + Record(fs[i])
  {
    RecordsSnoc(fs[..i], fs[i]);
    assert fs[..i + 1] == fs[..i] + [fs[i]];
    Regroup(before, Records(fs[..i]), Record(fs[i]));
  }

  /** What the reader needs of a record; the writer checks none of it. */
  predicate Readable(f: MediaFrame) {
    f.header.payloadLen == |f.payload| <= 16 * 1024 * 1024 && f.header.flags < 16
  }

  predicate AllReadable(fs: seq<MediaFrame>) { forall i :: 0 <= i < |fs| ==> Readable(fs[i]) }

  /** A record is read back, leaving the reader on the next one, exactly when it is readable. */
  lemma RecordRoundTrip(f: MediaFrame, rest: Bytes)
    ensures ReadRecord(Record(f) + rest) == Ok(Got(f, rest)) <==> Readable(f)
  {
    var input := Record(f) + rest;
    HeaderRoundTrip(f.header, []);
    assert HeaderBytes(f.header) + [] == HeaderBytes(f.header);
    assert input[..HEADER_LEN] == HeaderBytes(f.header);
    assert input[HEADER_LEN..HEADER_LEN + |f.payload|] == f.payload;
    assert input[HEADER_LEN + |f.payload|..] == rest;
    assert f.header.payloadLen != |f.payload| && |input| >= HEADER_LEN + f.header.payloadLen ==>
        |input[HEADER_LEN..HEADER_LEN + f.header.payloadLen]| != |f.payload|;
  }

  /** Everything the reader loop gets before it stops, and why it stops. */
  datatype Pumped = Pumped(frames: seq<MediaFrame>, stop: ReadError)

  function ReadAll(input: Bytes): Pumped
    decreases |input|
  {
    match ReadRecord(input)
    case Err(e) => Pumped([], e)
    case Ok(got) =>
      var p := ReadAll(got.rest);
      p.(frames := [got.value] + p.frames)
  }

  /** The reader gets these frames out of the input, then stops like this. */
  predicate Yields(input: Bytes, frames: seq<MediaFrame>, stop: ReadError) {
    ReadAll(input).frames == frames && ReadAll(input).stop == stop
  }

  lemma ReadAllCons(f: MediaFrame, rest: Bytes)
    requires Readable(f)
    ensures Yields(Record(f) + rest, [f] + ReadAll(rest).frames, ReadAll(rest).stop)
  {
    RecordRoundTrip(f, rest);
  }

  /** How many whole records fit in the first `cut` bytes. */
  function Whole(fs: seq<MediaFrame>, cut: nat): (n: nat)
    ensures n <= |fs|
  {
    if fs == [] || cut < |Record(fs[0])| then 0
    else 1 + Whole(fs[1..], cut - |Record(fs[0])|)
  }

  lemma CutBytes(f: MediaFrame, rest: Bytes, cut: nat)
    requires |Record(f)| <= cut <= |Record(f)| + |rest|
    ensures (Record(f) + rest)[..cut] == Record(f) + rest[..cut - |Record(f)|]
  {
  }

  lemma FirstFrames(fs: seq<MediaFrame>, n: nat)
    requires n < |fs|
    ensures [fs[0]] + fs[1..][..n] == fs[..n + 1]
  {
  }

  lemma OneThen(f: MediaFrame, tail: Bytes, frames: seq<MediaFrame>, wire: Bytes)
    requires Readable(f) && Yields(tail, frames, Eof) && wire == Record(f) + tail
    ensures Yields(wire, [f] + frames, Eof)
  {
    ReadAllCons(f, tail);
  }

  lemma {:induction false} CutWire(fs: seq<MediaFrame>, cut: nat, wire: Bytes)
    requires AllReadable(fs) && cut <= |Records(fs)| && wire == Records(fs)[..cut]
    ensures Yields(wire, fs[..Whole(fs, cut)], Eof)
  {
    if fs == [] {
    } else if cut < |Record(fs[0])| {
      ReadAllShort(fs[0], Records(fs[1..]), cut);
    } else {
      var left := cut - |Record(fs[0])|;
      var tail := Records(fs[1..])[..left];
      CutWire(fs[1..], left, tail);
      CutBytes(fs[0], Records(fs[1..]), cut);
      FirstFrames(fs, Whole(fs[1..], left));
      OneThen(fs[0], tail, fs[1..][..Whole(fs[1..], left)], wire);
    }
  }

  /** A stream that ends anywhere yields exactly the records that arrived whole, then end of file. */
  lemma CutStream(fs: seq<MediaFrame>, cut: nat)
    requires AllReadable(fs) && cut <= |Records(fs)|
    ensures Yields(Records(fs)[..cut], fs[..Whole(fs, cut)], Eof)
  {
    CutWire(fs, cut, Records(fs)[..cut]);
  }

  lemma {:induction false} WholeIsAll(fs: seq<MediaFrame>)
    ensures Whole(fs, |Records(fs)|) == |fs|
  {
    if fs != [] {
      WholeIsAll(fs[1..]);
    }
  }

  lemma ShortRecord(f: MediaFrame, rest: Bytes, cut: nat)
    requires Readable(f) && cut < |Record(f)|
    ensures ReadRecord((Record(f) + rest)[..cut]) == Err(Eof)
  {
    var input := (Record(f) + rest)[..cut];
    if cut >= HEADER_LEN {
      assert input[..HEADER_LEN] == HeaderBytes(f.header);
      HeaderRoundTrip(f.header, []);
      assert HeaderBytes(f.header) + [] == HeaderBytes(f.header);
    }
  }

  lemma RecordsTail(fs: seq<MediaFrame>, rest: Bytes)
    requires fs != []
    ensures Records(fs) + rest == Record(fs[0]) + (Records(fs[1..]) + rest)
  {
  }

  /** The reader gets past any readable records and goes on with what follows them. */
  lemma {:induction false} ReadAllPrefix(fs: seq<MediaFrame>, rest: Bytes)
    requires AllReadable(fs)
    ensures Yields(Records(fs) + rest, fs + ReadAll(rest).frames, ReadAll(rest).stop)
  {
    if fs == [] {
      assert Records(fs) + rest == rest;
    } else {
      var tail := Records(fs[1..]) + rest;
      RecordsTail(fs, rest);
      ReadAllPrefix(fs[1..], rest);
      ReadAllCons(fs[0], tail);
      ConsConcat(fs, ReadAll(rest).frames);
    }
  }

  lemma ConsConcat(fs: seq<MediaFrame>, more: seq<MediaFrame>)
    requires fs != []
    ensures [fs[0]] + (fs[1..] + more) == fs + more
  {
  }

  lemma {:induction false} RecordsConcat(a: seq<MediaFrame>, b: seq<MediaFrame>)
    ensures Records(a + b) == Records(a) + Records(b)
  {
    if a == [] {
      assert a + b == b;
    } else {
      RecordsConcat(a[1..], b);
      assert (a + b)[1..] == a[1..] + b;
      RecordsTail(a, Records(b));
    }
  }

  lemma ReadAllRecords(fs: seq<MediaFrame>)
    requires AllReadable(fs)
    ensures Yields(Records(fs), fs, Eof)
  {
    CutStream(fs, |Records(fs)|);
    WholeIsAll(fs);
    assert Records(fs)[..|Records(fs)|] == Records(fs);
  }

  lemma ReadAllShort(f: MediaFrame, rest: Bytes, cut: nat)
    requires Readable(f) && cut < |Record(f)|
    ensures Yields((Record(f) + rest)[..cut], [], Eof)
  {
    ShortRecord(f, rest, cut);
  }

  /**
   * One hello and any list of readable frames, written by either side's encoder, are read back as the
   * same binding and the same frames, with nothing left over.
   */
  lemma SocketRoundTrip(j: Json, b: MediaBinding, fs: seq<MediaFrame>)
    requires Lawful(j) && |j.encode(HelloEnvelope(b))| <= U32_MAX
    requires AllReadable(fs)
    ensures ReadHello(j, HelloBytes(j, b) + Records(fs)) == Ok(Got(b, Records(fs)))
    ensures Yields(Records(fs), fs, Eof)
  {
    HelloRoundTrip(j, b, Records(fs));
    ReadAllRecords(fs);
  }
}
