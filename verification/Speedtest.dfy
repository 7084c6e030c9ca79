/** The ramp speedtest: generator, per-step aggregation, evaluation. */
module Speedtest {
  import opened Common
  import opened Tables
  import opened Wire
  import opened MediaSocket
  import opened Pipeline
  import opened Protocol
  import opened SelectMode

  const DEFAULT_RAMP_KBPS: seq<nat> := [50_000, 100_000, 200_000, 400_000, 800_000]
  const DEFAULT_STEP_MS := 500

  datatype StepObservation = StepObservation(targetKbps: nat, receivedBytes: nat, durationMs: nat, avgRttMs: real)

  /** Bits per millisecond, truncated. */
  function MeasuredKbps(o: StepObservation): nat {
    if o.durationMs == 0 then 0 else o.receivedBytes * 8 / o.durationMs
  }

  predicate Accepted(o: StepObservation, baselineRttMs: real) {
    && 100 * MeasuredKbps(o) >= 85 * o.targetKbps
    && (baselineRttMs <= 0.0 || o.avgRttMs <= baselineRttMs * 2.0)
  }

  function Score(o: StepObservation): nat { Min(MeasuredKbps(o), o.targetKbps) }

  /** The best score of an accepted step, 0 if none; and the worst round trip seen. */
  datatype Measurement = Measurement(sustainedKbps: nat, rttMs: real)

  ghost predicate IsMeasurement(m: Measurement, os: seq<StepObservation>, baseline: real) {
    && (forall i :: 0 <= i < |os| && Accepted(os[i], baseline) ==> Score(os[i]) <= m.sustainedKbps)
    && (m.sustainedKbps == 0
        || exists i :: 0 <= i < |os| && Accepted(os[i], baseline) && Score(os[i]) == m.sustainedKbps)
    && baseline <= m.rttMs && (forall i :: 0 <= i < |os| ==> os[i].avgRttMs <= m.rttMs)
    && (m.rttMs == baseline || exists i :: 0 <= i < |os| && os[i].avgRttMs == m.rttMs)
  }

  /** A step that carried 85% of its target without doubling the round trip. */
  predicate Carried(o: StepObservation, baseline: real) {
    && o.durationMs > 0 && 100 * (8 * o.receivedBytes / o.durationMs) >= 85 * o.targetKbps
    && (baseline <= 0.0 || o.avgRttMs <= 2.0 * baseline)
  }

  /**
   * The same in bytes and milliseconds: a positive result was really transferred by a step that carried
   * its target, and no such step transferred more, up to its target.
   */
  ghost predicate IsTransferred(m: Measurement, os: seq<StepObservation>, baseline: real) {
    && (m.sustainedKbps > 0 ==>
          exists i :: 0 <= i < |os| && Carried(os[i], baseline)
            && m.sustainedKbps * os[i].durationMs <= 8 * os[i].receivedBytes
            && m.sustainedKbps <= os[i].targetKbps)
    && forall i :: 0 <= i < |os| && Carried(os[i], baseline) ==>
         || m.sustainedKbps >= os[i].targetKbps
         || (m.sustainedKbps + 1) * os[i].durationMs > 8 * os[i].receivedBytes
  }

  lemma RateIs(o: StepObservation)
    requires o.durationMs > 0
    ensures var r := MeasuredKbps(o);
      r == 8 * o.receivedBytes / o.durationMs
      && r * o.durationMs <= 8 * o.receivedBytes < (r + 1) * o.durationMs
  {
    var bits, ms := 8 * o.receivedBytes, o.durationMs;
    assert bits == bits / ms * ms + bits % ms;
    assert (bits / ms + 1) * ms == bits / ms * ms + ms;
  }

  /** A rate above the one measured would have needed more bytes. */
  lemma MoreNeedsMore(o: StepObservation, kbps: nat)
    requires o.durationMs > 0 && MeasuredKbps(o) <= kbps
    ensures (kbps + 1) * o.durationMs > 8 * o.receivedBytes
  {
    RateIs(o);
    MulMono(MeasuredKbps(o) + 1, kbps + 1, o.durationMs);
  }

  lemma MeasurementIsTransferred(m: Measurement, os: seq<StepObservation>, baseline: real)
    requires IsMeasurement(m, os, baseline)
    ensures IsTransferred(m, os, baseline)
  {
    if m.sustainedKbps > 0 {
      var i :| 0 <= i < |os| && Accepted(os[i], baseline) && Score(os[i]) == m.sustainedKbps;
      RateIs(os[i]);
      MulMono(m.sustainedKbps, MeasuredKbps(os[i]), os[i].durationMs);
      assert Carried(os[i], baseline);
    }
    forall i | 0 <= i < |os| && Carried(os[i], baseline)
      ensures m.sustainedKbps >= os[i].targetKbps || (m.sustainedKbps + 1) * os[i].durationMs > 8 * os[i].receivedBytes
    {
      RateIs(os[i]);
      assert Accepted(os[i], baseline);
      if m.sustainedKbps < os[i].targetKbps {
        MoreNeedsMore(os[i], m.sustainedKbps);
      }
    }
  }

  /** The reported goodput in Mbit/s is `sustainedKbps / 1000`. */
  method Evaluate(os: seq<StepObservation>, baseline: real) returns (m: Measurement)
    ensures IsMeasurement(m, os, baseline) && IsTransferred(m, os, baseline)
  {
    var sustained: nat, maxRtt: real := 0, baseline;
    for i := 0 to |os|
      invariant IsMeasurement(Measurement(sustained, maxRtt), os[..i], baseline)
    {
      var o := os[i];
      var measured := MeasuredKbps(o);
      var fits := 100 * measured >= 85 * o.targetKbps;
      var rttOk := baseline <= 0.0 || o.avgRttMs <= baseline * 2.0;
      ghost var before := Measurement(sustained, maxRtt);
      if fits && rttOk {
        sustained := Max(sustained, Min(measured, o.targetKbps));
      }
      if o.avgRttMs > maxRtt {
        maxRtt := o.avgRttMs;
      }
      Extend(os, i, before, Measurement(sustained, maxRtt), baseline);
    }
    assert os[..|os|] == os;
    m := Measurement(sustained, maxRtt);
    MeasurementIsTransferred(m, os, baseline);
  }

  lemma Extend(os: seq<StepObservation>, i: nat, m: Measurement, m': Measurement, baseline: real)
    requires i < |os| && IsMeasurement(m, os[..i], baseline)
    requires m'.sustainedKbps
      == if Accepted(os[i], baseline) then Max(m.sustainedKbps, Score(os[i])) else m.sustainedKbps
    requires m'.rttMs == if os[i].avgRttMs > m.rttMs then os[i].avgRttMs else m.rttMs
    ensures IsMeasurement(m', os[..i + 1], baseline)
  {
    var a, b := os[..i], os[..i + 1];
    assert b[i] == os[i];
    assert forall k :: 0 <= k < i ==> b[k] == a[k];
    if m'.sustainedKbps == m.sustainedKbps && m.sustainedKbps > 0 {
      var k :| 0 <= k < i && Accepted(a[k], baseline) && Score(a[k]) == m.sustainedKbps;
      assert b[k] == a[k];
    }
    if m'.rttMs == m.rttMs && m.rttMs != baseline {
      var k :| 0 <= k < i && a[k].avgRttMs == m.rttMs;
      assert b[k] == a[k];
    }
  }

  /** Two measurements of the same observations agree: the contract pins the result down. */
  lemma MeasurementUnique(m: Measurement, n: Measurement, os: seq<StepObservation>, baseline: real)
    requires IsMeasurement(m, os, baseline) && IsMeasurement(n, os, baseline)
    ensures m == n
  {
  }

  // ------------------------------------------------------------ generator

  function FramesPerStep(targetKbps: nat, w: u16, h: u16, stepMs: nat): nat {
    var frameBits := w * h * 12;
    if frameBits == 0 then 0
    else Min(Max(targetKbps * 1000 * stepMs / 1000 / frameBits, 1), U32_MAX)
  }

  function FrameBytes(w: u16, h: u16): nat { w * h * 3 / 2 }

  function Repeat<T>(x: T, n: nat): (s: seq<T>)
    ensures |s| == n
  {
    if n == 0 then [] else Repeat(x, n - 1) + [x]
  }

  /** What the counter should log: each step's frames, all carrying that step's index. */
  function RampArrivals(steps: seq<nat>, w: u16, h: u16, stepMs: nat): seq<Arrival>
    requires |steps| <= 0x1_0000
  {
    if steps == [] then []
    else
      var i := |steps| - 1;
      RampArrivals(steps[..i], w, h, stepMs)
      + Repeat(Arrival(i, FrameBytes(w, h)), FramesPerStep(steps[i], w, h, stepMs))
  }

  function MarkerFrame(step: nat, w: u16, h: u16, pts: u64, filler: Bytes): MediaFrame
    requires step < 0x1_0000 && |filler| <= U32_MAX
  {
    MediaFrame(MediaHeader(0, RawCodec, w, h, SPEEDTEST_SEQ_BASE + step, pts, |filler|), filler)
  }

  predicate AllMarkers(fs: seq<MediaFrame>) {
    forall i :: 0 <= i < |fs| ==> Readable(fs[i]) && IsMarker(fs[i])
  }

  /**
   * The phone's ramp: for each step, its frames back to back on the media socket. `clock` supplies the
   * time stamps. A reader of the socket gets frames that count as the ramp and can all be read.
   */
  method SpeedtestRamp(stream: MediaStream, steps: seq<nat>, w: u16, h: u16, stepMs: nat, clock: (nat, nat) -> u64)
      returns (ghost sent: seq<MediaFrame>)
    requires |steps| <= 0x1_0000 && FrameBytes(w, h) <= MAX_FRAME_BYTES
    modifies stream`writer
    ensures stream.writer == old(stream.writer) + Records(sent)
    ensures IsRamp(sent, steps, w, h, stepMs)
  {
    sent := [];
    var filler: Bytes := seq(FrameBytes(w, h), _ => 0x80);
    assert stream.writer == old(stream.writer) + Records([]);
    for i := 0 to |steps|
      invariant stream.writer == old(stream.writer) + Records(sent)
      invariant Arrivals(sent) == RampArrivals(steps[..i], w, h, stepMs) && AllMarkers(sent)
    {
      assert steps[..i + 1][..i] == steps[..i];
      ghost var step := SendStep(stream, i, FramesPerStep(steps[i], w, h, stepMs), w, h, filler, clock);
      SendMore(sent, step, old(stream.writer));
      sent := sent + step;
    }
    assert steps[..|steps|] == steps;
  }

  /** One step of the ramp. */
  method SendStep(
      stream: MediaStream, step: nat, frames: nat, w: u16, h: u16, filler: Bytes, clock: (nat, nat) -> u64)
      returns (ghost sent: seq<MediaFrame>)
    requires step < 0x1_0000 && |filler| == FrameBytes(w, h) <= MAX_FRAME_BYTES
    modifies stream`writer
    ensures stream.writer == old(stream.writer) + Records(sent)
    ensures Arrivals(sent) == Repeat(Arrival(step, FrameBytes(w, h)), frames) && AllMarkers(sent)
  {
    sent := [];
    assert stream.writer == old(stream.writer) + Records([]);
    for k := 0 to frames
      invariant stream.writer == old(stream.writer) + Records(sent)
      invariant Arrivals(sent) == Repeat(Arrival(step, FrameBytes(w, h)), k) && AllMarkers(sent)
    {
      var f := MarkerFrame(step, w, h, clock(step, k), filler);
      WriteMediaFrame(stream, f.header, filler);
      MarkerIs(step, w, h, clock(step, k), filler, sent);
      SendOne(sent, f, old(stream.writer));
      sent := sent + [f];
    }
  }

  lemma MarkerIs(step: nat, w: u16, h: u16, pts: u64, filler: Bytes, sent: seq<MediaFrame>)
    requires step < 0x1_0000 && |filler| == FrameBytes(w, h) <= MAX_FRAME_BYTES && AllMarkers(sent)
    ensures var f := MarkerFrame(step, w, h, pts, filler);
      ArrivalsOne(f) == [Arrival(step, FrameBytes(w, h))] && AllMarkers(sent + [f])
  {
  }

  lemma SendOne(sent: seq<MediaFrame>, f: MediaFrame, before: Bytes)
    ensures before + Records(sent + [f]) == before + Records(sent) + Record(f)
    ensures Arrivals(sent + [f]) == Arrivals(sent) + ArrivalsOne(f)
  {
    RecordsSnoc(sent, f);
    Regroup(before, Records(sent), Record(f));
    ArrivalsSnoc(sent, f);
  }

  lemma SendMore(sent: seq<MediaFrame>, more: seq<MediaFrame>, before: Bytes)
    ensures before + Records(sent + more) == before + Records(sent) + Records(more)
    ensures Arrivals(sent + more) == Arrivals(sent) + Arrivals(more)
  {
    RecordsConcat(sent, more);
    Regroup(before, Records(sent), Records(more));
    ArrivalsConcat(sent, more);
  }

  lemma {:induction false} ArrivalsConcat(a: seq<MediaFrame>, b: seq<MediaFrame>)
    ensures Arrivals(a + b) == Arrivals(a) + Arrivals(b)
  {
    if b == [] {
      assert a + b == a;
    } else {
      var prefix, f := b[..|b| - 1], b[|b| - 1];
      ArrivalsConcat(a, prefix);
      assert (a + b)[..|a + b| - 1] == a + prefix && (a + b)[|a + b| - 1] == f;
      assert Arrivals(a + b) == Arrivals(a + prefix) + ArrivalsOne(f);
      RegroupArrivals(Arrivals(a), Arrivals(prefix), ArrivalsOne(f));
    }
  }

  lemma RegroupArrivals(a: seq<Arrival>, b: seq<Arrival>, c: seq<Arrival>)
    ensures a + b + c == a + (b + c)
  {
  }

  lemma ArrivalsSnoc(fs: seq<MediaFrame>, f: MediaFrame)
    ensures Arrivals(fs + [f]) == Arrivals(fs) + ArrivalsOne(f)
  {
    assert (fs + [f])[..|fs|] == fs;
  }

  // ------------------------------------------------------------ aggregation

  function Observations(steps: seq<nat>, arrivals: seq<Arrival>, stepMs: nat): (os: seq<StepObservation>)
    requires |steps| <= 0x1_0000
    ensures |os| == |steps|
    ensures forall i :: 0 <= i < |steps| ==>
      os[i] == StepObservation(steps[i], BytesFor(arrivals, i), stepMs, 0.0)
  {
    seq(|steps|, i requires 0 <= i < |steps| => StepObservation(steps[i], BytesFor(arrivals, i), stepMs, 0.0))
  }

  /** After the ramp: take what was counted since the last drain, aggregate, evaluate. */
  method Measure(counter: SpeedTestCounter, steps: seq<nat>, stepMs: nat) returns (m: Measurement)
    requires |steps| <= 0x1_0000
    modifies counter
    ensures counter.inner == []
    ensures IsMeasurement(m, Observations(steps, old(counter.inner), stepMs), 0.0)
  {
    var arrivals := counter.Drain();
    m := Evaluate(Observations(steps, arrivals, stepMs), 0.0);
  }

  lemma OneMoreTime(n: nat, b: nat)
    requires n > 0
    ensures n * b == (n - 1) * b + b
  {
  }

  lemma RepeatSnoc(a: Arrival, n: nat, step: u32)
    requires n > 0
    ensures BytesFor(Repeat(a, n), step)
      == BytesFor(Repeat(a, n - 1), step) + if a.stepIndex == step then a.payloadBytes else 0
  {
    assert Repeat(a, n)[..n - 1] == Repeat(a, n - 1);
  }

  lemma {:induction false} BytesForRepeat(a: Arrival, n: nat, step: u32)
    ensures BytesFor(Repeat(a, n), step) == if a.stepIndex == step then n * a.payloadBytes else 0
  {
    if n > 0 {
      BytesForRepeat(a, n - 1, step);
      RepeatSnoc(a, n, step);
      OneMoreTime(n, a.payloadBytes);
    }
  }

  /** The ramp counts, for each step, that step's frames and nothing of any other step. */
  lemma {:induction false} RampBytes(steps: seq<nat>, w: u16, h: u16, stepMs: nat, i: nat)
    requires |steps| <= 0x1_0000 && i < 0x1_0000
    ensures BytesFor(RampArrivals(steps, w, h, stepMs), i)
         == if i < |steps| then FramesPerStep(steps[i], w, h, stepMs) * FrameBytes(w, h) else 0
  {
    if steps != [] {
      var k := |steps| - 1;
      var last := Repeat(Arrival(k, FrameBytes(w, h)), FramesPerStep(steps[k], w, h, stepMs));
      RampBytes(steps[..k], w, h, stepMs, i);
      BytesForConcat(RampArrivals(steps[..k], w, h, stepMs), last, i);
      BytesForRepeat(Arrival(k, FrameBytes(w, h)), FramesPerStep(steps[k], w, h, stepMs), i);
    }
  }

  // ------------------------------------------------------------- accuracy

  lemma CancelFactor(a: nat, b: nat, c: nat)
    ensures a * c < b * c ==> a < b
  {
    if a >= b {
      MulMono(b, a, c);
    }
  }

  /** `k` blocks of `b` bits, `k` the whole blocks in `n` bits: at least 6/7 of `n` once `k >= 6`. */
  lemma BlocksCover(n: nat, b: nat, k: nat)
    requires b > 0 && k == n / b && n >= 6 * b
    ensures 6 * n < 7 * (k * b) && k * b <= n && k >= 6
  {
    assert n == k * b + n % b;
    assert (k + 1) * b == k * b + b;
    CancelFactor(6, k + 1, b);
    MulMono(6, k, b);
  }

  lemma TruncatedRate(bits: nat, ms: nat, target: nat)
    requires ms > 0 && 6 * (target * ms) < 7 * bits && bits <= target * ms && target >= 120
    ensures 100 * (bits / ms) >= 85 * target && bits / ms <= target
  {
    var m := bits / ms;
    assert bits == m * ms + bits % ms;
    assert (6 * target) * ms == 6 * (target * ms);
    assert (7 * m + 7) * ms == 7 * (m * ms) + 7 * ms;
    CancelFactor(6 * target, 7 * m + 7, ms);
    assert (target + 1) * ms == target * ms + ms;
    CancelFactor(m, target + 1, ms);
  }

  lemma FrameCount(target: nat, w: u16, h: u16, ms: nat)
    requires w * h > 0 && target * ms >= 72 * (w * h)
    requires target * ms < 12 * (w * h) * (U32_MAX + 1)
    ensures FramesPerStep(target, w, h, ms) == target * ms / (12 * (w * h))
  {
    var n, b := target * ms, 12 * (w * h);
    assert target * 1000 * ms / 1000 == n by {
      assert target * 1000 * ms == n * 1000;
    }
    BlocksCover(n, b, n / b);
    CancelFactor(n / b, U32_MAX + 1, b);
  }

  lemma StepBits(frames: nat, w: u16, h: u16)
    requires w * h % 2 == 0
    ensures frames * FrameBytes(w, h) * 8 == frames * (12 * (w * h))
  {
    FrameBits(w * h);
    Eightfold(frames, FrameBytes(w, h));
  }

  lemma Eightfold(a: nat, b: nat)
    ensures a * b * 8 == a * (b * 8)
  {
  }

  lemma WholeBlocks(n: nat, b: nat, limit: nat)
    requires b > 0 && n < b * (limit + 1)
    ensures n / b * b <= n < (n / b + 1) * b && n / b <= limit
    ensures n / b >= 1 <==> n >= b
  {
    assert n == n / b * b + n % b;
    assert (n / b + 1) * b == n / b * b + b;
    CancelFactor(n / b, limit + 1, b);
    if n >= b {
      CancelFactor(1, n / b + 1, b);
    } else {
      CancelFactor(n / b, 1, b);
    }
  }

  /** As many whole frames as the budget of bits holds, but at least one of a picture that has pixels. */
  lemma FramesFillBudget(target: nat, w: u16, h: u16, ms: nat)
    requires w * h > 0 && target * ms < 12 * (w * h) * (U32_MAX + 1)
    ensures var k, bits := FramesPerStep(target, w, h, ms), 12 * (w * h);
      if target * ms < bits then k == 1 else k * bits <= target * ms < (k + 1) * bits
  {
    var n, b := target * ms, 12 * (w * h);
    WholeBlocks(n, b, U32_MAX);
    assert target * 1000 * ms == n * 1000;
    assert target * 1000 * ms / 1000 == n;
  }

  /** A picture without pixels is not sent. */
  lemma NoPixelsNoFrames(target: nat, w: u16, h: u16, ms: nat)
    ensures FramesPerStep(target, w, h, ms) == 0 <==> w * h == 0
  {
  }

  /** A lossless step of at least six whole frames, at 120 kbit/s or more, is always accepted. */
  lemma LosslessStepAccepted(target: nat, w: u16, h: u16, ms: nat, bytes: nat)
    requires w * h > 0 && w * h % 2 == 0 && ms > 0
    requires target >= 120 && target * ms >= 72 * (w * h)
    requires target * ms < 12 * (w * h) * (U32_MAX + 1)
    requires bytes == FramesPerStep(target, w, h, ms) * FrameBytes(w, h)
    ensures var o := StepObservation(target, bytes, ms, 0.0);
      Accepted(o, 0.0) && MeasuredKbps(o) <= target
  {
    var n, b := target * ms, 12 * (w * h);
    var k := n / b;
    FrameCount(target, w, h, ms);
    BlocksCover(n, b, k);
    StepBits(k, w, h);
    TruncatedRate(k * b, ms, target);
  }

  /** A larger step sends 2^32 - 1 frames, which is accepted exactly when those still make 85%. */
  lemma SaturatedStepAcceptedIff(target: nat, w: u16, h: u16, ms: nat, bytes: nat)
    requires w * h > 0 && w * h % 2 == 0 && ms > 0
    requires target * ms >= 12 * (w * h) * (U32_MAX + 1)
    requires bytes == FramesPerStep(target, w, h, ms) * FrameBytes(w, h)
    ensures Accepted(StepObservation(target, bytes, ms, 0.0), 0.0)
      <==> 100 * (12 * (w * h) * U32_MAX / ms) >= 85 * target
  {
    var n, b := target * ms, 12 * (w * h);
    assert target * 1000 * ms / 1000 == n by {
      assert target * 1000 * ms == n * 1000;
    }
    assert n == n / b * b + n % b;
    assert (n / b + 1) * b == n / b * b + b;
    CancelFactor(U32_MAX + 1, n / b + 1, b);
    assert FramesPerStep(target, w, h, ms) == U32_MAX;
    StepBits(U32_MAX, w, h);
  }

  /** Whatever was counted, the result never exceeds the ramp's largest target. */
  lemma GoodputBelowTop(steps: seq<nat>, arrivals: seq<Arrival>, ms: nat, m: Measurement, top: nat)
    requires |steps| <= 0x1_0000
    requires IsMeasurement(m, Observations(steps, arrivals, ms), 0.0)
    requires forall k :: 0 <= k < |steps| ==> steps[k] <= top
    ensures m.sustainedKbps <= top
  {
    var os := Observations(steps, arrivals, ms);
    if m.sustainedKbps > 0 {
      var i :| 0 <= i < |os| && Accepted(os[i], 0.0) && Score(os[i]) == m.sustainedKbps;
      assert os[i].targetKbps == steps[i];
    }
  }

  /** The ramp as `SpeedtestRamp` sends it. */
  ghost predicate IsRamp(sent: seq<MediaFrame>, steps: seq<nat>, w: u16, h: u16, stepMs: nat)
    requires |steps| <= 0x1_0000
  {
    Arrivals(sent) == RampArrivals(steps, w, h, stepMs) && AllMarkers(sent)
  }

  /** The frames `fs` that arrive are the ramp, whole, with any other traffic in between. */
  ghost predicate Interleaves(fs: seq<MediaFrame>, steps: seq<nat>, w: u16, h: u16, stepMs: nat)
    requires |steps| <= 0x1_0000
  {
    IsRamp(Keep(fs, true), steps, w, h, stepMs)
  }

  lemma InterleavedIsCounted(fs: seq<MediaFrame>, steps: seq<nat>, w: u16, h: u16, stepMs: nat)
    requires |steps| <= 0x1_0000 && Interleaves(fs, steps, w, h, stepMs)
    ensures Arrivals(fs) == RampArrivals(steps, w, h, stepMs)
  {
    MarkersAndVideoAreSeparate(fs, _ => None);
  }

  /**
   * On a lossless link the speedtest is right to within 15%: whatever video is interleaved with the
   * ramp, every step that holds six frames bounds the result from below up to the 85% tolerance.
   */
  lemma LosslessGoodput(steps: seq<nat>, w: u16, h: u16, ms: nat, fs: seq<MediaFrame>, m: Measurement, i: nat)
    requires |steps| <= 0x1_0000 && w * h > 0 && w * h % 2 == 0 && ms > 0
    requires Interleaves(fs, steps, w, h, ms)
    requires IsMeasurement(m, Observations(steps, Arrivals(fs), ms), 0.0)
    requires i < |steps| && steps[i] >= 120
    requires 72 * (w * h) <= steps[i] * ms < 12 * (w * h) * (U32_MAX + 1)
    ensures 100 * m.sustainedKbps >= 85 * steps[i]
  {
    var os := Observations(steps, Arrivals(fs), ms);
    InterleavedIsCounted(fs, steps, w, h, ms);
    RampBytes(steps, w, h, ms, i);
    LosslessStepAccepted(steps[i], w, h, ms, os[i].receivedBytes);
    assert Score(os[i]) <= m.sustainedKbps;
  }

  // ---------------------------------------------------- the shipped ramp

  const ALL_CAPS := [CapHevc, CapH264, CapRawNv12]

  const DEFAULT_IPHONE_CAPS := [
    AvailableMode(1280, 720, 30, ALL_CAPS), AvailableMode(1280, 720, 60, ALL_CAPS),
    AvailableMode(1920, 1080, 30, ALL_CAPS), AvailableMode(1920, 1080, 60, ALL_CAPS)]

  /** The default capabilities: 720p and 1080p at 30 and 60 fps in all three formats, 1080p60 on top. */
  lemma DefaultCapsTop()
    ensures |DEFAULT_IPHONE_CAPS| == 4
    ensures forall a :: a in DEFAULT_IPHONE_CAPS <==>
      && ((a.width == 1280 && a.height == 720) || (a.width == 1920 && a.height == 1080))
      && (a.fps == 30 || a.fps == 60) && a.caps == [CapHevc, CapH264, CapRawNv12]
    ensures Tops(DEFAULT_IPHONE_CAPS[3], DEFAULT_IPHONE_CAPS)
    ensures EncodedMode(DEFAULT_IPHONE_CAPS[3], Hevc) == Mode(Encoded, Hevc, 1920, 1080, 60, 50_000, true)
    ensures EncodedKbps(DEFAULT_IPHONE_CAPS[3], Hevc) == 50_000
  {
  }

  function WifiQuery(m: Measurement): Query {
    Query(m.sustainedKbps as real / 1000.0, WiFi, UserLimits(None, None, None, false))
  }

  function Recommended(m: Measurement, caps: seq<AvailableMode>): Mode { Chosen(WifiQuery(m), caps) }

  /** Every mode but `best` has a smaller or slower picture; all have HEVC and some pixels. */
  predicate Tops(best: AvailableMode, caps: seq<AvailableMode>) {
    && best in caps
    && forall a :: a in caps ==>
         && CapHevc in a.caps && RawBitrateKbps(a.width, a.height, a.fps) > 0
         && (a == best || PictureKey(RawMode(a)) < PictureKey(RawMode(best)))
  }

  /** Over Wi-Fi, which never carries raw, the top mode wins as soon as its HEVC target fits. */
  lemma WifiPicksTop(q: Query, caps: seq<AvailableMode>, best: AvailableMode)
    requires q.transport == WiFi && q.limits == UserLimits(None, None, None, false)
    requires Tops(best, caps) && EncodedKbps(best, Hevc) <= UsableKbps(q.goodputMbps)
    ensures Chosen(q, caps) == EncodedMode(best, Hevc)
  {
    var top := EncodedMode(best, Hevc);
    assert Offers(q, best, top);
    forall n | Feasible(q, caps, n) ensures n == top || Key(n) < Key(top) {
      var a :| a in caps && Offers(q, a, n);
    }
    StrictBestIsChosen(q, caps, top);
  }

  lemma UsableOf(kbps: nat, n: nat)
    requires 10 * n <= 7 * kbps && n <= U64_MAX
    ensures n <= UsableKbps(kbps as real / 1000.0)
  {
    assert kbps as real / 1000.0 * 1000.0 * 0.70 == 0.70 * kbps as real;
    assert 0.70 * kbps as real >= n as real;
  }

  predicate EndsAt800Mbps(steps: seq<nat>) {
    && 0 < |steps| <= 0x1_0000 && steps[|steps| - 1] == 800_000
    && forall k :: 0 <= k < |steps| ==> steps[k] <= 800_000
  }

  /** The shipped ramp doubles four times, from 50 to 800 Mbit/s, in steps of half a second. */
  lemma DefaultRampEnds()
    ensures EndsAt800Mbps(DEFAULT_RAMP_KBPS)
    ensures |DEFAULT_RAMP_KBPS| == 5 && DEFAULT_RAMP_KBPS[0] == 50_000 && DEFAULT_STEP_MS == 500
    ensures forall i :: 0 < i < 5 ==> DEFAULT_RAMP_KBPS[i] == 2 * DEFAULT_RAMP_KBPS[i - 1]
  {
  }

  /**
   * A ramp like the shipped one, for any even picture of up to 5.5 megapixels on a lossless link,
   * measures between 680 and 800 Mbit/s, whatever video is interleaved.
   */
  lemma RampGoodput(steps: seq<nat>, w: u16, h: u16, fs: seq<MediaFrame>, m: Measurement)
    requires 0 < w * h <= 5_555_555 && w * h % 2 == 0 && EndsAt800Mbps(steps)
    requires Interleaves(fs, steps, w, h, DEFAULT_STEP_MS)
    requires IsMeasurement(m, Observations(steps, Arrivals(fs), DEFAULT_STEP_MS), 0.0)
    ensures 680_000 <= m.sustainedKbps <= 800_000
  {
    LosslessGoodput(steps, w, h, DEFAULT_STEP_MS, fs, m, |steps| - 1);
    GoodputBelowTop(steps, Arrivals(fs), DEFAULT_STEP_MS, m, 800_000);
  }

  /** Such a measurement recommends the best advertised mode if its HEVC target is at most 476 Mbit/s. */
  lemma RampRecommends(m: Measurement, caps: seq<AvailableMode>, best: AvailableMode)
    requires m.sustainedKbps >= 680_000
    requires Tops(best, caps) && EncodedKbps(best, Hevc) <= 476_000
    ensures Recommended(m, caps) == EncodedMode(best, Hevc)
  {
    UsableOf(m.sustainedKbps, 476_000);
    WifiPicksTop(WifiQuery(m), caps, best);
  }

  /**
   * The shipped speedtest, end to end: for any even picture of up to 5.5 megapixels, on a lossless link
   * and whatever video runs beside it, the default ramp measures between 680 and 800 Mbit/s and, with
   * the default capabilities, recommends 1080p60 HEVC at 50000 kbit/s.
   */
  lemma ShippedSpeedtest(w: u16, h: u16, fs: seq<MediaFrame>, m: Measurement)
    requires 0 < w * h <= 5_555_555 && w * h % 2 == 0
    requires Interleaves(fs, DEFAULT_RAMP_KBPS, w, h, DEFAULT_STEP_MS)
    requires IsMeasurement(m, Observations(DEFAULT_RAMP_KBPS, Arrivals(fs), DEFAULT_STEP_MS), 0.0)
    ensures 680_000 <= m.sustainedKbps <= 800_000
    ensures Recommended(m, DEFAULT_IPHONE_CAPS) == Mode(Encoded, Hevc, 1920, 1080, 60, 50_000, true)
  {
    DefaultRampEnds();
    RampGoodput(DEFAULT_RAMP_KBPS, w, h, fs, m);
    DefaultCapsTop();
    RampRecommends(m, DEFAULT_IPHONE_CAPS, DEFAULT_IPHONE_CAPS[3]);
  }
}
