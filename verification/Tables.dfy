/** Stream modes and the bitrate tables. */
module Tables {
  import opened Common

  datatype FormatKind = Raw | Encoded

  datatype CodecName = NoCodec | Hevc | H264

  /** The pixel format is omitted: NV12 is the only one. */
  datatype Mode = Mode(
    format: FormatKind, codec: CodecName,
    width: u16, height: u16, fps: u16,
    bitrateKbps: u32, fullRange: bool)

  const DEFAULT_MODE := Mode(Encoded, Hevc, 1920, 1080, 30, 30_000, true)

  function RawBitrateKbps(width: nat, height: nat, fps: nat): nat {
    width * height * 3 / 2 * 8 * fps / 1000
  }

  function HevcTargetKbps(width: nat, height: nat, fps: nat): nat {
    match (width, height, fps)
    case (1280, 720, 30) => 12_000
    case (1280, 720, 60) => 20_000
    case (1920, 1080, 30) => 30_000
    case (1920, 1080, 60) => 50_000
    case (3840, 2160, 30) => 90_000
    case _ => width * height * fps / 2_560
  }

  function H264TargetKbps(width: nat, height: nat, fps: nat): nat {
    HevcTargetKbps(width, height, fps) * 8 / 5
  }

  lemma MulMono(a: nat, b: nat, c: nat)
    requires a <= b
    ensures a * c <= b * c
  {
  }

  /** The raw rate dominates eight bits per pixel: halving after tripling never loses a whole byte. */
  lemma RawLowerBound(width: nat, height: nat, fps: nat)
    ensures RawBitrateKbps(width, height, fps) >= width * height * fps / 125
  {
    var area := width * height;
    var bits := area * 3 / 2 * 8;
    assert bits >= area * 8;
    MulMono(area * 8, bits, fps);
    assert area * 8 * fps == 8 * (area * fps);
  }

  /** HEVC never costs more than H.264, and neither more than raw, whatever the dimensions. */
  lemma TargetsBelowRaw(width: nat, height: nat, fps: nat)
    ensures HevcTargetKbps(width, height, fps)
         <= H264TargetKbps(width, height, fps)
         <= RawBitrateKbps(width, height, fps)
  {
    RawLowerBound(width, height, fps);
  }

  lemma FrameBits(area: nat)
    requires area % 2 == 0
    ensures area * 3 / 2 * 8 == 12 * area
  {
    var half := area / 2;
    assert area == 2 * half;
    assert area * 3 / 2 == 3 * half;
  }

  /** Raw NV12 costs twelve bits a pixel: the rate of even pictures is exact, truncated to kilobits. */
  lemma RawRateIs(width: nat, height: nat, fps: nat)
    requires width * height % 2 == 0
    ensures var r := RawBitrateKbps(width, height, fps);
      1000 * r <= 12 * (width * height) * fps < 1000 * (r + 1)
  {
    var area := width * height;
    FrameBits(area);
    assert RawBitrateKbps(width, height, fps) == 12 * area * fps / 1000;
  }

  /** The documented rates. */
  lemma DocumentedRates()
    ensures RawBitrateKbps(1280, 720, 30) == 331_776 && RawBitrateKbps(1920, 1080, 30) == 746_496
    ensures HevcTargetKbps(1280, 720, 30) == 12_000 && HevcTargetKbps(1280, 720, 60) == 20_000
    ensures HevcTargetKbps(1920, 1080, 30) == 30_000 && HevcTargetKbps(1920, 1080, 60) == 50_000
    ensures HevcTargetKbps(3840, 2160, 30) == 90_000 && HevcTargetKbps(3840, 2160, 60) == 194_400
    ensures H264TargetKbps(1280, 720, 30) == 19_200 && H264TargetKbps(1920, 1080, 60) == 80_000
  {
  }

  /** For u16 arguments, which is all the callers pass, no u64 intermediate can wrap. */
  lemma NoIntermediateOverflow(width: u16, height: u16, fps: u16)
    ensures width * height * 3 / 2 * 8 * fps <= U64_MAX
    ensures width * height * fps <= U64_MAX
    ensures HevcTargetKbps(width, height, fps) * 8 <= U64_MAX
  {
    var area := width * height;
    assert area <= U16_MAX * U16_MAX by {
      MulMono(width, U16_MAX, height);
      MulMono(height, U16_MAX, U16_MAX);
    }
    var bits := area * 3 / 2 * 8;
    MulMono(bits, U16_MAX * U16_MAX * 12, fps);
    MulMono(fps, U16_MAX, U16_MAX * U16_MAX * 12);
    MulMono(area, U16_MAX * U16_MAX, fps);
    MulMono(fps, U16_MAX, U16_MAX * U16_MAX);
  }
}
