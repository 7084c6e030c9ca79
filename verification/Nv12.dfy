/** The NV12 path: strided capture planes, tight payload, split planes, preview pixels. */
module Nv12 {
  import opened Common
  import opened Wire
  import opened MediaSocket

  // ------------------------------------------------------- strided to tight

  /** `a * b` by repeated addition, which keeps row arithmetic linear for the solver. */
  function Times(a: nat, b: nat): nat { if a == 0 then 0 else Times(a - 1, b) + b }

  lemma {:induction false} TimesIs(a: nat, b: nat)
    ensures Times(a, b) == a * b
  {
    if a > 0 {
      TimesIs(a - 1, b);
      assert a * b == (a - 1) * b + b;
    }
  }

  lemma {:induction false} TimesMono(a: nat, a': nat, b: nat)
    requires a <= a'
    ensures Times(a, b) <= Times(a', b)
    ensures a < a' ==> Times(a, b) + b <= Times(a', b)
  {
    if a < a' {
      TimesMono(a, a' - 1, b);
    }
  }

  /** `rows` rows of `w` bytes, `stride` apart, lie within `n` bytes. */
  predicate Spans(n: nat, stride: nat, w: nat, rows: nat) {
    w <= stride && (rows == 0 || Times(rows - 1, stride) + w <= n)
  }

  function TightRows(src: Bytes, stride: nat, w: nat, rows: nat): (t: Bytes)
    requires Spans(|src|, stride, w, rows)
    ensures |t| == Times(rows, w)
  {
    if rows == 0 then []
    else
      var at := Times(rows - 1, stride);
      TightRows(src, stride, w, rows - 1) + src[at..at + w]
  }

  /** Row `r`, column `c` of the tight plane is row `r`, column `c` of the strided one. */
  lemma {:induction false} TightAt(src: Bytes, stride: nat, w: nat, rows: nat, r: nat, c: nat)
    requires Spans(|src|, stride, w, rows) && r < rows && c < w
    ensures SameByte(TightRows(src, stride, w, rows), Times(r, w) + c, src, Times(r, stride) + c)
  {
    TimesMono(r, rows, w);
    TimesMono(r, rows - 1, stride);
    if r < rows - 1 {
      TimesMono(r, rows - 1, w);
      TightAt(src, stride, w, rows - 1, r, c);
    }
  }

  predicate SameByte(t: Bytes, i: nat, src: Bytes, j: nat) {
    i < |t| && j < |src| && t[i] == src[j]
  }

  function Zeros(n: nat): (z: Bytes)
    ensures |z| == n
  {
    seq(n, _ => 0)
  }

  lemma RowFits(src: Bytes, stride: nat, w: nat, rows: nat, size: nat, r: nat)
    requires Spans(|src|, stride, w, rows) && Times(rows, w) <= size && r < rows
    ensures Times(r, w) + w == Times(r + 1, w) <= size
    ensures Times(r, stride) + w <= |src| && Times(r, stride) + stride == Times(r + 1, stride)
    ensures Spans(|src|, stride, w, r) && Spans(|src|, stride, w, r + 1)
    ensures TightRows(src, stride, w, r + 1)
         == TightRows(src, stride, w, r) + src[Times(r, stride)..Times(r, stride) + w]
  {
    TimesMono(r, rows, w);
    TimesMono(r, rows - 1, stride);
  }

  /** Copying over the start of the untouched zeros extends what is done. */
  lemma CopyOverZeros(done: Bytes, row: Bytes, n: nat)
    requires |row| <= n
    ensures (done + Zeros(n))[..|done|] == done
    ensures (done + Zeros(n))[|done| + |row|..] == Zeros(n - |row|)
  {
  }

  /** `memcpy` of the next row. */
  method CopyRow(dst: array<byte>, to: nat, row: Bytes, ghost done: Bytes)
    requires to == |done| && to + |row| <= dst.Length
    requires dst[..] == done + Zeros(dst.Length - to)
    modifies dst
    ensures dst[..] == done + row + Zeros(dst.Length - to - |row|)
  {
    CopyOverZeros(done, row, dst.Length - to);
    CopyInto(dst, to, row);
    assert dst[..] == dst[..to + |row|] + dst[to + |row|..];
  }

  /** Row by row `memcpy` into a zeroed buffer. */
  method CopyPlane(src: Bytes, stride: nat, w: nat, rows: nat, size: nat) returns (dst: array<byte>)
    requires Spans(|src|, stride, w, rows) && Times(rows, w) <= size
    ensures fresh(dst)
    ensures dst[..] == TightRows(src, stride, w, rows) + Zeros(size - Times(rows, w))
  {
    dst := new byte[size](_ => 0);
    assert dst[..] == Zeros(size);
    var to, from := 0, 0;
    for r := 0 to rows
      invariant to == Times(r, w) <= size == dst.Length && from == Times(r, stride)
      invariant Spans(|src|, stride, w, r)
      invariant dst[..] == TightRows(src, stride, w, r) + Zeros(size - to)
    {
      RowFits(src, stride, w, rows, size, r);
      CopyRow(dst, to, src[from..from + w], TightRows(src, stride, w, r));
      to, from := to + w, from + stride;
    }
  }

  /** A biplanar capture buffer: luma and interleaved chroma, each with its own row stride. */
  datatype Capture = Capture(
    width: u16, height: u16, yPlane: Bytes, yStride: nat, uvPlane: Bytes, uvStride: nat)

  predicate ValidCapture(c: Capture) {
    && Spans(|c.yPlane|, c.yStride, c.width, c.height)
    && Spans(|c.uvPlane|, c.uvStride, c.width, c.height / 2)
  }

  datatype PlaneSizeMismatch = PlaneSizeMismatch(gotY: nat, gotUv: nat)

  /** The header's 32-bit length traps on a larger payload. */
  function PackPlanes(y: Bytes, uv: Bytes, w: u16, h: u16, seq32: u32, pts: u64, fullRange: bool)
      : Result<MediaFrame, PlaneSizeMismatch>
    requires |y| == w * h && |uv| == w * h / 2 ==> |y| + |uv| <= U32_MAX
  {
    if |y| == w * h && |uv| == w * h / 2 then
      Ok(MediaFrame(MediaHeader(if fullRange then FULL_RANGE else 0, RawCodec, w, h, seq32, pts, |y| + |uv|), y + uv))
    else Err(PlaneSizeMismatch(|y|, |uv|))
  }

  lemma {:induction false} TimesTwice(k: nat, w: nat)
    ensures Times(2 * k, w) == 2 * Times(k, w)
  {
    if k > 0 {
      TimesTwice(k - 1, w);
      assert Times(2 * k, w) == Times(2 * k - 1, w) + w;
      assert Times(2 * k - 1, w) == Times(2 * k - 2, w) + w;
    }
  }

  lemma PlaneSizes(w: nat, h: nat)
    ensures Times(h, w) == w * h
    ensures Times(h / 2, w) <= w * h / 2
    ensures h % 2 == 0 ==> Times(h / 2, w) == w * h / 2
  {
    TimesIs(h, w);
    TimesTwice(h / 2, w);
    if h % 2 == 1 {
      assert Times(h, w) == Times(2 * (h / 2), w) + w;
    }
  }

  /** Rows the chroma loop does not reach (odd height) stay zero. */
  function TightChroma(c: Capture): (t: Bytes)
    requires ValidCapture(c)
    ensures |t| == c.width * c.height / 2
  {
    var rows := TightRows(c.uvPlane, c.uvStride, c.width, c.height / 2);
    PlaneSizes(c.width, c.height);
    rows + Zeros(c.width * c.height / 2 - |rows|)
  }

  function PackCapture(c: Capture, seq32: u32, pts: u64): Result<MediaFrame, PlaneSizeMismatch>
    requires ValidCapture(c) && c.width * c.height + c.width * c.height / 2 <= U32_MAX
  {
    PlaneSizes(c.width, c.height);
    PackPlanes(TightRows(c.yPlane, c.yStride, c.width, c.height), TightChroma(c),
               c.width, c.height, seq32, pts, true)
  }

  method CopyLuma(c: Capture) returns (y: array<byte>)
    requires ValidCapture(c)
    ensures fresh(y) && y[..] == TightRows(c.yPlane, c.yStride, c.width, c.height)
  {
    PlaneSizes(c.width, c.height);
    y := CopyPlane(c.yPlane, c.yStride, c.width, c.height, c.width * c.height);
    assert Zeros(0) == [];
  }

  method CopyChroma(c: Capture) returns (uv: array<byte>)
    requires ValidCapture(c)
    ensures fresh(uv) && uv[..] == TightChroma(c)
  {
    PlaneSizes(c.width, c.height);
    uv := CopyPlane(c.uvPlane, c.uvStride, c.width, c.height / 2, c.width * c.height / 2);
  }

  method PackPixelBuffer(c: Capture, seq32: u32, pts: u64)
      returns (r: Result<MediaFrame, PlaneSizeMismatch>)
    requires ValidCapture(c) && c.width * c.height + c.width * c.height / 2 <= U32_MAX
    ensures r == PackCapture(c, seq32, pts)
  {
    PlaneSizes(c.width, c.height);
    var y := CopyLuma(c);
    var uv := CopyChroma(c);
    r := PackPlanes(y[..], uv[..], c.width, c.height, seq32, pts, true);
  }

  // ------------------------------------------------------ split and preview

  datatype Planes = Planes(y: Bytes, uv: Bytes)

  datatype SplitError = SplitError(got: nat, expected: nat)

  function SplitNv12(payload: Bytes, w: u16, h: u16): Result<Planes, SplitError> {
    var ySize: nat := w * h;
    var expected := ySize + ySize / 2;
    if |payload| != expected then Err(SplitError(|payload|, expected))
    else Ok(Planes(payload[..ySize], payload[ySize..]))
  }

  /** Splitting accepts exactly what packing produces, and undoes it. */
  lemma SplitUndoesPack(y: Bytes, uv: Bytes, w: u16, h: u16)
    ensures SplitNv12(y + uv, w, h) == Ok(Planes(y, uv)) <==> |y| == w * h && |uv| == w * h / 2
  {
    if |y| == w * h {
      assert (y + uv)[..|y|] == y && (y + uv)[|y|..] == uv;
    } else if |y + uv| == w * h + w * h / 2 {
      assert |(y + uv)[..w * h]| != |y|;
    }
  }

  datatype Pixel = Pixel(luma: byte, cb: byte, cr: byte)

  /** Offset of column `x` of row `y`. */
  function At(stride: nat, x: nat, y: nat): nat { y * stride + x }

  lemma AtIs(stride: nat, x: nat, y: nat)
    ensures At(stride, x, y) == Times(y, stride) + x
  {
    TimesIs(y, stride);
  }

  function LumaIndex(w: nat, x: nat, y: nat): nat { At(w, x, y) }

  /** Each chroma row serves two luma rows, each chroma pair two columns. */
  function ChromaIndex(w: nat, x: nat, y: nat): nat { At(w, x / 2 * 2, y / 2) }

  predicate InBounds(p: Planes, w: nat, x: nat, y: nat) {
    LumaIndex(w, x, y) < |p.y| && ChromaIndex(w, x, y) + 1 < |p.uv|
  }

  function PixelAt(p: Planes, w: nat, x: nat, y: nat): Pixel
    requires InBounds(p, w, x, y)
  {
    Pixel(p.y[LumaIndex(w, x, y)], p.uv[ChromaIndex(w, x, y)], p.uv[ChromaIndex(w, x, y) + 1])
  }

  ghost predicate AllInBounds(p: Planes, w: nat, h: nat) {
    forall x, y :: 0 <= x < w && 0 <= y < h ==> InBounds(p, w, x, y)
  }

  ghost function RowPixels(p: Planes, w: nat, y: nat, n: nat): (s: seq<Pixel>)
    requires forall x :: 0 <= x < n ==> InBounds(p, w, x, y)
    ensures |s| == n
  {
    seq(n, x requires 0 <= x < n => PixelAt(p, w, x, y))
  }

  ghost function Image(p: Planes, w: nat, h: nat): (s: seq<Pixel>)
    requires AllInBounds(p, w, h)
    ensures |s| == Times(h, w)
  {
    if h == 0 then [] else Image(p, w, h - 1) + RowPixels(p, w, h - 1, w)
  }

  /** Pixel (x, y) of the picture stands at position y * w + x. */
  lemma {:induction false} ImageAt(p: Planes, w: nat, h: nat, x: nat, y: nat)
    requires AllInBounds(p, w, h) && x < w && y < h
    ensures At(w, x, y) < |Image(p, w, h)|
    ensures Image(p, w, h)[At(w, x, y)] == PixelAt(p, w, x, y)
  {
    AtIs(w, x, y);
    TimesMono(y, h, w);
    if y < h - 1 {
      TimesMono(y, h - 1, w);
      ImageAt(p, w, h - 1, x, y);
    }
  }

  /** The preview loop; `None` is the index panic, which loses the whole preview frame. */
  method Preview(p: Planes, w: u16, h: u16) returns (r: Option<seq<Pixel>>)
    ensures r.Some? <==> AllInBounds(p, w, h)
    ensures r.Some? ==> r.value == Image(p, w, h)
  {
    var rgb: seq<Pixel> := [];
    for y := 0 to h
      invariant AllInBounds(p, w, y)
      invariant rgb == Image(p, w, y)
    {
      ghost var above := rgb;
      for x := 0 to w
        invariant forall c :: 0 <= c < x ==> InBounds(p, w, c, y)
        invariant rgb == above + RowPixels(p, w, y, x)
      {
        if !InBounds(p, w, x, y) {
          return None;
        }
        rgb := rgb + [PixelAt(p, w, x, y)];
      }
    }
    r := Some(rgb);
  }

  lemma LumaInBounds(w: nat, h: nat, x: nat, y: nat)
    requires x < w && y < h
    ensures LumaIndex(w, x, y) == Times(y, w) + x < w * h
  {
    AtIs(w, x, y);
    PlaneSizes(w, h);
    TimesMono(y, h, w);
  }

  lemma ChromaInBounds(w: nat, h: nat, x: nat, y: nat)
    requires w % 2 == 0 && h % 2 == 0 && x < w && y < h
    ensures ChromaIndex(w, x, y) == Times(y / 2, w) + x / 2 * 2
    ensures ChromaIndex(w, x, y) + 1 < w * h / 2
  {
    AtIs(w, x / 2 * 2, y / 2);
    PlaneSizes(w, h);
    TimesMono(y / 2, h / 2, w);
  }

  lemma BottomRightOutOfBounds(w: nat, h: nat)
    requires w > 0 && h > 0 && (w % 2 == 1 || h % 2 == 1)
    ensures ChromaIndex(w, w - 1, h - 1) + 1 >= w * h / 2
  {
    var q := (h - 1) / 2;
    if h % 2 == 1 {
      assert h == 2 * q + 1;
      assert w * h == 2 * (q * w) + w;
    } else {
      assert h == 2 * q + 2;
      assert w * h == 2 * (q * w) + 2 * w;
    }
  }

  /** For planes split from a payload, the preview survives exactly for even or empty pictures. */
  lemma PreviewSurvivesIff(p: Planes, w: u16, h: u16)
    requires |p.y| == w * h && |p.uv| == w * h / 2
    ensures AllInBounds(p, w, h) <==> w == 0 || h == 0 || (w % 2 == 0 && h % 2 == 0)
  {
    if w > 0 && h > 0 {
      if w % 2 == 0 && h % 2 == 0 {
        forall x, y | 0 <= x < w && 0 <= y < h ensures InBounds(p, w, x, y) {
          LumaInBounds(w, h, x, y);
          ChromaInBounds(w, h, x, y);
        }
      } else {
        BottomRightOutOfBounds(w, h);
        assert !InBounds(p, w, w - 1, h - 1);
      }
    }
  }

  /** Two pixels read the same chroma pair exactly when they lie in the same 2x2 block. */
  lemma ChromaShared(w: nat, x: nat, y: nat, x': nat, y': nat)
    requires w % 2 == 0 && x < w && x' < w
    ensures ChromaIndex(w, x, y) == ChromaIndex(w, x', y') <==> x / 2 == x' / 2 && y / 2 == y' / 2
  {
    var a, b := x / 2 * 2, x' / 2 * 2;
    assert 0 <= a < w && 0 <= b < w;
    if ChromaIndex(w, x, y) == ChromaIndex(w, x', y') {
      RowColumnUnique(w, y / 2, a, y' / 2, b);
    }
  }

  lemma RowColumnUnique(w: nat, r: nat, c: nat, r': nat, c': nat)
    requires c < w && c' < w && r * w + c == r' * w + c'
    ensures r == r' && c == c'
  {
    QuotientIs(r * w + c, w, r, c);
    QuotientIs(r' * w + c', w, r', c');
  }

  /** A capture packs into a readable record whose payload splits back into the tight planes. */
  lemma PackedIsReadable(c: Capture, seq32: u32, pts: u64)
    requires ValidCapture(c)
    requires c.width * c.height + c.width * c.height / 2 <= MAX_FRAME_BYTES
    ensures var r := PackCapture(c, seq32, pts);
      && r.Ok? && Readable(r.value)
      && r.value.header.width == c.width && r.value.header.height == c.height
      && SplitNv12(r.value.payload, c.width, c.height)
         == Ok(Planes(TightRows(c.yPlane, c.yStride, c.width, c.height), TightChroma(c)))
  {
    PlaneSizes(c.width, c.height);
    SplitUndoesPack(TightRows(c.yPlane, c.yStride, c.width, c.height), TightChroma(c), c.width, c.height);
  }

  /** The preview at (x, y) reads the capture buffer's own luma byte and chroma pair. */
  predicate ShowsSource(p: Planes, c: Capture, x: nat, y: nat) {
    var chroma := At(c.uvStride, x / 2 * 2, y / 2);
    && InBounds(p, c.width, x, y)
    && SameByte(p.y, LumaIndex(c.width, x, y), c.yPlane, At(c.yStride, x, y))
    && SameByte(p.uv, ChromaIndex(c.width, x, y), c.uvPlane, chroma)
    && SameByte(p.uv, ChromaIndex(c.width, x, y) + 1, c.uvPlane, chroma + 1)
  }

  lemma ChromaSource(c: Capture, x: nat, y: nat, k: nat)
    requires ValidCapture(c) && c.width % 2 == 0 && c.height % 2 == 0
    requires x < c.width && y < c.height && k < 2
    ensures SameByte(TightChroma(c), ChromaIndex(c.width, x, y) + k,
                     c.uvPlane, At(c.uvStride, x / 2 * 2, y / 2) + k)
  {
    ChromaInBounds(c.width, c.height, x, y);
    AtIs(c.uvStride, x / 2 * 2, y / 2);
    TightAt(c.uvPlane, c.uvStride, c.width, c.height / 2, y / 2, x / 2 * 2 + k);
  }

  lemma LumaSource(c: Capture, x: nat, y: nat)
    requires ValidCapture(c) && x < c.width && y < c.height
    ensures SameByte(TightRows(c.yPlane, c.yStride, c.width, c.height), LumaIndex(c.width, x, y),
                     c.yPlane, At(c.yStride, x, y))
  {
    LumaInBounds(c.width, c.height, x, y);
    AtIs(c.yStride, x, y);
    TightAt(c.yPlane, c.yStride, c.width, c.height, y, x);
  }

  lemma TightShowsSource(c: Capture, x: nat, y: nat)
    requires ValidCapture(c) && c.width % 2 == 0 && c.height % 2 == 0
    requires x < c.width && y < c.height
    ensures ShowsSource(Planes(TightRows(c.yPlane, c.yStride, c.width, c.height), TightChroma(c)), c, x, y)
  {
    LumaSource(c, x, y);
    ChromaSource(c, x, y, 0);
    ChromaSource(c, x, y, 1);
  }

  /**
   * From capture buffer to screen. For even dimensions, any strides and any payload within the cap,
   * the frame that is packed, sent, read and split shows at (x, y) exactly the source bytes of (x, y).
   */
  lemma CaptureToPreview(c: Capture, seq32: u32, pts: u64, rest: Bytes, x: nat, y: nat)
    requires ValidCapture(c) && c.width % 2 == 0 && c.height % 2 == 0
    requires c.width * c.height + c.width * c.height / 2 <= MAX_FRAME_BYTES
    requires x < c.width && y < c.height
    ensures match PackCapture(c, seq32, pts)
      case Err(_) => false
      case Ok(sent) =>
        && ReadRecord(Record(sent) + rest) == Ok(Got(sent, rest))
        && match SplitNv12(sent.payload, sent.header.width, sent.header.height)
           case Err(_) => false
           case Ok(shown) => ShowsSource(shown, c, x, y)
  {
    PackedIsReadable(c, seq32, pts);
    RecordRoundTrip(PackCapture(c, seq32, pts).value, rest);
    TightShowsSource(c, x, y);
  }

  /** A packed frame says what it is: raw, of its size, full range exactly if captured so. */
  lemma PackedHeader(y: Bytes, uv: Bytes, w: u16, h: u16, seq32: u32, pts: u64, fullRange: bool)
    requires |y| == w * h && |uv| == w * h / 2 && |y| + |uv| <= U32_MAX
    ensures var r := PackPlanes(y, uv, w, h, seq32, pts, fullRange);
      && r.Ok? && r.value.payload == y + uv
      && r.value.header == MediaHeader(if fullRange then 4 else 0, RawCodec, w, h, seq32, pts, w * h + w * h / 2)
  {
  }

  /** The pixel drawn at (x, y): luma, then blue, then red difference, straight from the capture buffer. */
  lemma PixelIsSource(p: Planes, c: Capture, x: nat, y: nat)
    requires ShowsSource(p, c, x, y)
    ensures var l, u := y * c.yStride + x, y / 2 * c.uvStride + x / 2 * 2;
      && l < |c.yPlane| && u + 1 < |c.uvPlane|
      && PixelAt(p, c.width, x, y) == Pixel(c.yPlane[l], c.uvPlane[u], c.uvPlane[u + 1])
  {
  }

  lemma CaptureInBounds(c: Capture, shown: Planes, x: nat, y: nat)
    requires ValidCapture(c) && c.width % 2 == 0 && c.height % 2 == 0 && x < c.width && y < c.height
    requires shown == Planes(TightRows(c.yPlane, c.yStride, c.width, c.height), TightChroma(c))
    ensures AllInBounds(shown, c.width, c.height) && ShowsSource(shown, c, x, y)
  {
    PlaneSizes(c.width, c.height);
    PreviewSurvivesIff(shown, c.width, c.height);
    TightShowsSource(c, x, y);
  }

  /** The capture, packed within the cap and split again, gives these planes. */
  predicate ArrivesAs(c: Capture, seq32: u32, pts: u64, shown: Planes) {
    && ValidCapture(c) && c.width * c.height + c.width * c.height / 2 <= MAX_FRAME_BYTES
    && match PackCapture(c, seq32, pts)
       case Err(_) => false
       case Ok(sent) => SplitNv12(sent.payload, sent.header.width, sent.header.height) == Ok(shown)
  }

  /** The pixel at position y * width + x: luma, blue and red difference straight from the capture buffer. */
  predicate Drawn(image: seq<Pixel>, c: Capture, x: nat, y: nat) {
    var at, l, u := y * c.width + x, y * c.yStride + x, y / 2 * c.uvStride + x / 2 * 2;
    && at < |image| && l < |c.yPlane| && u + 1 < |c.uvPlane|
    && image[at] == Pixel(c.yPlane[l], c.uvPlane[u], c.uvPlane[u + 1])
  }

  /** The same as a picture: what the preview loop draws of a capture of even size. */
  lemma CaptureIsDrawn(c: Capture, seq32: u32, pts: u64, shown: Planes, x: nat, y: nat)
    requires ArrivesAs(c, seq32, pts, shown) && c.width % 2 == 0 && c.height % 2 == 0
    requires x < c.width && y < c.height
    ensures AllInBounds(shown, c.width, c.height) && Drawn(Image(shown, c.width, c.height), c, x, y)
  {
    PackedIsReadable(c, seq32, pts);
    CaptureInBounds(c, shown, x, y);
    PixelIsSource(shown, c, x, y);
    ImageAt(shown, c.width, c.height, x, y);
  }
}
