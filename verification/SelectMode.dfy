/** Choosing the best mode a measured link can carry. */
module SelectMode {
  import opened Common
  import opened Protocol
  import opened Tables

  datatype TransportClass = WiFi | Usb2 | Usb3

  datatype UserLimits = UserLimits(
    maxWidth: Option<u16>, maxHeight: Option<u16>, maxFps: Option<u16>, preferRaw: bool)

  datatype AvailableMode = AvailableMode(width: u16, height: u16, fps: u16, caps: seq<Capability>)

  /** Everything the choice depends on besides the advertised modes. */
  datatype Query = Query(goodputMbps: real, transport: TransportClass, limits: UserLimits)

  function RawCeilingKbps(t: TransportClass): nat {
    match t
    case WiFi => 0
    case Usb2 => 480_000
    case Usb3 => 5_000_000
  }

  /** 70% of the goodput, truncated and clamped as a float-to-u64 cast does. */
  function UsableKbps(goodputMbps: real): nat {
    var kbps := goodputMbps * 1000.0 * 0.70;
    if kbps <= 0.0 then 0 else Min(kbps.Floor, U64_MAX)
  }

  predicate Exceeds(x: u16, limit: Option<u16>) { limit.Some? && x > limit.value }

  predicate WithinLimits(a: AvailableMode, l: UserLimits) {
    !Exceeds(a.width, l.maxWidth) && !Exceeds(a.height, l.maxHeight) && !Exceeds(a.fps, l.maxFps)
  }

  function EncoderOf(a: AvailableMode): Option<CodecName> {
    if CapHevc in a.caps then Some(Hevc)
    else if CapH264 in a.caps then Some(H264)
    else None
  }

  function EncodedKbps(a: AvailableMode, codec: CodecName): nat {
    var target := HevcTargetKbps(a.width, a.height, a.fps);
    if codec == H264 then target * 8 / 5 else target
  }

  function RawMode(a: AvailableMode): Mode {
    Mode(Raw, NoCodec, a.width, a.height, a.fps, 0, true)
  }

  function EncodedMode(a: AvailableMode, codec: CodecName): Mode {
    Mode(Encoded, codec, a.width, a.height, a.fps, Min(EncodedKbps(a, codec), U32_MAX), true)
  }

  predicate RawFits(q: Query, a: AvailableMode) {
    var kbps := RawBitrateKbps(a.width, a.height, a.fps);
    && CapRawNv12 in a.caps
    && kbps <= UsableKbps(q.goodputMbps)
    && kbps <= RawCeilingKbps(q.transport)
  }

  predicate EncodedFits(q: Query, a: AvailableMode) {
    && EncoderOf(a).Some?
    && EncodedKbps(a, EncoderOf(a).value) <= UsableKbps(q.goodputMbps)
  }

  const SAFE_FALLBACK := Mode(Encoded, H264, 1280, 720, 30, 19_200, true)

  // ------------------------------------------------- ranking and the choice

  /** (area, fps) as one number. */
  function PictureKey(m: Mode): nat { m.width * m.height * (U16_MAX + 1) + m.fps }

  /** (area, fps, raw over encoded) as one number; see `KeyIsLexicographic`. */
  function Key(m: Mode): nat { PictureKey(m) * 2 + if m.format == Raw then 1 else 0 }

  lemma KeyIsLexicographic(m: Mode, n: Mode)
    ensures var a, b := m.width * m.height, n.width * n.height;
      Key(m) < Key(n) <==>
        || a < b
        || (a == b && m.fps < n.fps)
        || (a == b && m.fps == n.fps && m.format == Encoded && n.format == Raw)
  {
  }

  function CandidatesOf(q: Query, a: AvailableMode): seq<Mode> {
    if !WithinLimits(a, q.limits) then []
    else (if RawFits(q, a) then [RawMode(a)] else [])
         + (if EncodedFits(q, a) then [EncodedMode(a, EncoderOf(a).value)] else [])
  }

  function Candidates(q: Query, caps: seq<AvailableMode>): seq<Mode> {
    if caps == [] then []
    else Candidates(q, caps[..|caps| - 1]) + CandidatesOf(q, caps[|caps| - 1])
  }

  function RawOnly(cs: seq<Mode>): (r: seq<Mode>)
    ensures forall m :: m in r <==> m in cs && m.format == Raw
  {
    if cs == [] then []
    else RawOnly(cs[..|cs| - 1])
         + if cs[|cs| - 1].format == Raw then [cs[|cs| - 1]] else []
  }

  function Pool(q: Query, caps: seq<AvailableMode>): seq<Mode> {
    var cs := Candidates(q, caps);
    if q.limits.preferRaw && RawOnly(cs) != [] then RawOnly(cs) else cs
  }

  /** The last of the maximal elements, which is what an iterator's max-by-key returns. */
  function LastMax(cs: seq<Mode>): (m: Mode)
    requires cs != []
    ensures m in cs
    ensures forall c :: c in cs ==> Key(c) <= Key(m)
  {
    if |cs| == 1 then cs[0]
    else
      var m := LastMax(cs[..|cs| - 1]);
      var c := cs[|cs| - 1];
      if Key(c) >= Key(m) then c else m
  }

  function Chosen(q: Query, caps: seq<AvailableMode>): Mode {
    if Pool(q, caps) == [] then SAFE_FALLBACK else LastMax(Pool(q, caps))
  }

  method SelectMode(q: Query, caps: seq<AvailableMode>) returns (mode: Mode)
    ensures mode == Chosen(q, caps)
  {
    var usable := UsableKbps(q.goodputMbps);
    var candidates: seq<Mode> := [];
    for i := 0 to |caps|
      invariant candidates == Candidates(q, caps[..i])
    {
      var a := caps[i];
      assert caps[..i + 1][..i] == caps[..i];
      if Exceeds(a.width, q.limits.maxWidth) { continue; }
      if Exceeds(a.height, q.limits.maxHeight) { continue; }
      if Exceeds(a.fps, q.limits.maxFps) { continue; }
      if CapRawNv12 in a.caps {
        var raw := RawBitrateKbps(a.width, a.height, a.fps);
        if raw <= usable && raw <= RawCeilingKbps(q.transport) {
          candidates := candidates + [RawMode(a)];
        }
      }
      var codec := EncoderOf(a);
      if codec.Some? {
        var target := EncodedKbps(a, codec.value);
        if target <= usable {
          candidates := candidates + [EncodedMode(a, codec.value)];
        }
      }
    }
    assert caps[..|caps|] == caps;
    if q.limits.preferRaw && RawOnly(candidates) != [] {
      candidates := RawOnly(candidates);
    }
    if candidates == [] {
      return SAFE_FALLBACK;
    }
    mode := Best(candidates);
  }

  method Best(candidates: seq<Mode>) returns (mode: Mode)
    requires candidates != []
    ensures mode == LastMax(candidates)
  {
    mode := candidates[0];
    for i := 1 to |candidates|
      invariant mode == LastMax(candidates[..i])
    {
      assert candidates[..i + 1][..i] == candidates[..i];
      if Key(candidates[i]) >= Key(mode) {
        mode := candidates[i];
      }
    }
    assert candidates[..|candidates|] == candidates;
  }

  // ------------------------------------------- refinement of a set argmax

  /** `m` is the raw or encoded rendition of advertised mode `a`, and the link can carry it. */
  predicate Offers(q: Query, a: AvailableMode, m: Mode) {
    && WithinLimits(a, q.limits)
    && (|| (RawFits(q, a) && m == RawMode(a))
        || (EncodedFits(q, a) && m == EncodedMode(a, EncoderOf(a).value)))
  }

  ghost predicate Feasible(q: Query, caps: seq<AvailableMode>, m: Mode) {
    exists a :: a in caps && Offers(q, a, m)
  }

  ghost predicate RawFeasible(q: Query, caps: seq<AvailableMode>, m: Mode) {
    Feasible(q, caps, m) && m.format == Raw
  }

  ghost predicate Eligible(q: Query, caps: seq<AvailableMode>, m: Mode) {
    && Feasible(q, caps, m)
    && (q.limits.preferRaw && (exists r :: RawFeasible(q, caps, r)) ==> m.format == Raw)
  }

  lemma {:induction false} CandidatesAreFeasible(q: Query, caps: seq<AvailableMode>, m: Mode)
    ensures m in Candidates(q, caps) <==> Feasible(q, caps, m)
  {
    if caps != [] {
      var prefix, a := caps[..|caps| - 1], caps[|caps| - 1];
      CandidatesAreFeasible(q, prefix, m);
      assert m in CandidatesOf(q, a) <==> Offers(q, a, m);
      assert forall x :: x in caps <==> x in prefix || x == a;
    }
  }

  lemma PoolIsEligible(q: Query, caps: seq<AvailableMode>)
    ensures forall m :: m in Pool(q, caps) <==> Eligible(q, caps, m)
  {
    forall m ensures m in Candidates(q, caps) <==> Feasible(q, caps, m) {
      CandidatesAreFeasible(q, caps, m);
    }
    var raws := RawOnly(Candidates(q, caps));
    if raws != [] {
      assert raws[0] in raws && RawFeasible(q, caps, raws[0]);
    }
  }

  /** The loop computes the argmax of (area, fps, raw) over the set of eligible modes. */
  lemma ChosenIsArgmax(q: Query, caps: seq<AvailableMode>)
    ensures (exists m :: Eligible(q, caps, m)) ==>
      && Eligible(q, caps, Chosen(q, caps))
      && forall m :: Eligible(q, caps, m) ==> Key(m) <= Key(Chosen(q, caps))
    ensures (forall m :: !Eligible(q, caps, m)) ==>
      Chosen(q, caps) == Mode(Encoded, H264, 1280, 720, 30, 19_200, true)
  {
    PoolIsEligible(q, caps);
    if Pool(q, caps) != [] {
      assert Pool(q, caps)[0] in Pool(q, caps);
    }
  }

  lemma SomeEligibleIff(q: Query, caps: seq<AvailableMode>)
    ensures (exists m :: Eligible(q, caps, m)) <==> exists m :: Feasible(q, caps, m)
  {
    if r :| RawFeasible(q, caps, r) {
      assert Eligible(q, caps, r);
    } else if m :| Feasible(q, caps, m) {
      assert Eligible(q, caps, m);
    }
  }

  /** A feasible mode that strictly outranks all others is the choice. */
  lemma StrictBestIsChosen(q: Query, caps: seq<AvailableMode>, best: Mode)
    requires !q.limits.preferRaw && Feasible(q, caps, best)
    requires forall m :: Feasible(q, caps, m) ==> m == best || Key(m) < Key(best)
    ensures Chosen(q, caps) == best
  {
    assert Eligible(q, caps, best);
    ChosenIsArgmax(q, caps);
  }

  /** Reordering or repeating the advertised modes cannot change the rank of the choice. */
  lemma OrderIrrelevant(q: Query, caps: seq<AvailableMode>, caps': seq<AvailableMode>)
    requires forall a :: a in caps <==> a in caps'
    ensures Key(Chosen(q, caps)) == Key(Chosen(q, caps'))
  {
    forall m ensures Feasible(q, caps, m) <==> Feasible(q, caps', m) {
    }
    assert forall m :: RawFeasible(q, caps, m) <==> RawFeasible(q, caps', m);
    assert forall m :: Eligible(q, caps, m) <==> Eligible(q, caps', m);
    ChosenIsArgmax(q, caps);
    ChosenIsArgmax(q, caps');
  }

  /** A choice other than the fallback respects every limit and fits the measured link. */
  lemma ChosenRespectsLimits(q: Query, caps: seq<AvailableMode>)
    requires exists m :: Feasible(q, caps, m)
    ensures var m := Chosen(q, caps);
      && !Exceeds(m.width, q.limits.maxWidth)
      && !Exceeds(m.height, q.limits.maxHeight)
      && !Exceeds(m.fps, q.limits.maxFps)
      && m.bitrateKbps <= UsableKbps(q.goodputMbps)
  {
    SomeEligibleIff(q, caps);
    ChosenIsArgmax(q, caps);
  }

  /** The fallback ignores limits, so limits hold exactly when something fits or 720p30 is allowed. */
  lemma LimitsHoldIff(q: Query, caps: seq<AvailableMode>)
    ensures var m := Chosen(q, caps);
      (!Exceeds(m.width, q.limits.maxWidth) && !Exceeds(m.height, q.limits.maxHeight)
       && !Exceeds(m.fps, q.limits.maxFps))
      <==> || (exists f :: Feasible(q, caps, f))
           || (!Exceeds(1280, q.limits.maxWidth) && !Exceeds(720, q.limits.maxHeight)
               && !Exceeds(30, q.limits.maxFps))
  {
    SomeEligibleIff(q, caps);
    if exists f :: Feasible(q, caps, f) {
      ChosenRespectsLimits(q, caps);
    } else {
      ChosenIsArgmax(q, caps);
    }
  }

  lemma FallbackIgnoresLimits()
    ensures Chosen(Query(0.5, WiFi, UserLimits(Some(640), None, None, false)), []).width == 1280
  {
  }

  // ------------------------------------------------------ what the link carries

  /** An advertised mode within the user's limits. */
  predicate Allowed(a: AvailableMode, l: UserLimits) {
    && (l.maxWidth.Some? ==> a.width <= l.maxWidth.value)
    && (l.maxHeight.Some? ==> a.height <= l.maxHeight.value)
    && (l.maxFps.Some? ==> a.fps <= l.maxFps.value)
  }

  /** `kbps` is at most 70% of the goodput. */
  predicate LeavesHeadroom(kbps: nat, goodputMbps: real) { kbps as real <= 700.0 * goodputMbps }

  /** A cable carries raw up to 480 Mbit/s or 5 Gbit/s; Wi-Fi never does. */
  predicate CableCarries(kbps: nat, t: TransportClass) {
    (t == Usb2 && kbps <= 480_000) || (t == Usb3 && kbps <= 5_000_000) || kbps == 0
  }

  /** `m` renders `a` as it is meant to: HEVC before H.264 at its target, or raw, at a rate that fits. */
  predicate Renders(q: Query, a: AvailableMode, m: Mode) {
    var hevc, h264 := HevcTargetKbps(a.width, a.height, a.fps), H264TargetKbps(a.width, a.height, a.fps);
    var raw := RawBitrateKbps(a.width, a.height, a.fps);
    && Allowed(a, q.limits)
    && (|| (&& m == Mode(Encoded, Hevc, a.width, a.height, a.fps, Min(hevc, U32_MAX), true)
            && CapHevc in a.caps && LeavesHeadroom(hevc, q.goodputMbps))
        || (&& m == Mode(Encoded, H264, a.width, a.height, a.fps, Min(h264, U32_MAX), true)
            && CapHevc !in a.caps && CapH264 in a.caps && LeavesHeadroom(h264, q.goodputMbps))
        || (&& m == Mode(Raw, NoCodec, a.width, a.height, a.fps, 0, true)
            && CapRawNv12 in a.caps && LeavesHeadroom(raw, q.goodputMbps) && CableCarries(raw, q.transport)))
  }

  /** A link whose usable rate is not clamped. */
  predicate PlainLink(q: Query) { 0.0 <= q.goodputMbps && 700.0 * q.goodputMbps <= U64_MAX as real }

  lemma HeadroomIs(q: Query, kbps: nat)
    requires PlainLink(q)
    ensures kbps <= UsableKbps(q.goodputMbps) <==> LeavesHeadroom(kbps, q.goodputMbps)
  {
    var x := q.goodputMbps * 1000.0 * 0.70;
    assert x == 700.0 * q.goodputMbps;
    assert x.Floor as real <= x < x.Floor as real + 1.0;
  }

  /** What is offered is exactly what is advertised, allowed and fits, in either rendition. */
  lemma OffersAreRenditions(q: Query, a: AvailableMode, m: Mode)
    requires PlainLink(q)
    ensures Offers(q, a, m) <==> Renders(q, a, m)
  {
    HeadroomIs(q, HevcTargetKbps(a.width, a.height, a.fps));
    HeadroomIs(q, H264TargetKbps(a.width, a.height, a.fps));
    HeadroomIs(q, RawBitrateKbps(a.width, a.height, a.fps));
  }

  /**
   * The choice leaves 30% of the goodput free and raw to the cables that carry it, whenever anything
   * fits: it renders an advertised, allowed mode at a rate that fits.
   */
  lemma ChosenFitsLink(q: Query, caps: seq<AvailableMode>, b: AvailableMode, r: Mode)
    requires PlainLink(q) && b in caps && Renders(q, b, r)
    ensures exists a :: a in caps && Renders(q, a, Chosen(q, caps))
  {
    OffersAreRenditions(q, b, r);
    assert Feasible(q, caps, r);
    ChosenIsFeasible(q, caps, r);
    var a :| a in caps && Offers(q, a, Chosen(q, caps));
    OffersAreRenditions(q, a, Chosen(q, caps));
  }

  /** Conversely nothing advertised and allowed that fits outranks the choice, if raw is not preferred. */
  lemma NothingBetterFits(q: Query, caps: seq<AvailableMode>, b: AvailableMode, r: Mode)
    requires PlainLink(q) && b in caps && Renders(q, b, r) && !q.limits.preferRaw
    ensures Key(r) <= Key(Chosen(q, caps))
  {
    OffersAreRenditions(q, b, r);
    assert Feasible(q, caps, r);
    ChosenIsFeasible(q, caps, r);
  }

  /** A 40 Mbit/s Wi-Fi link has 28 Mbit/s to spend: 720p60 fits, 1080p30 does not. */
  lemma FortyMegabits()
    ensures var q := Query(40.0, WiFi, UserLimits(None, None, None, false));
      var all := [CapHevc, CapH264, CapRawNv12];
      Chosen(q, [AvailableMode(1280, 720, 60, all), AvailableMode(1920, 1080, 30, all)])
      == Mode(Encoded, Hevc, 1280, 720, 60, 20_000, true)
  {
    var q := Query(40.0, WiFi, UserLimits(None, None, None, false));
    var all := [CapHevc, CapH264, CapRawNv12];
    var a, b := AvailableMode(1280, 720, 60, all), AvailableMode(1920, 1080, 30, all);
    DocumentedRates();
    assert RawBitrateKbps(1280, 720, 60) > 0;
    assert UsableKbps(40.0) == 28_000;
    TwoCandidates(q, a, b);
    assert CandidatesOf(q, a) == [EncodedMode(a, Hevc)] && CandidatesOf(q, b) == [];
  }

  // ------------------------------------------------------------- monotony

  predicate Looser(l: Option<u16>, l': Option<u16>) {
    l'.None? || (l.Some? && l.value <= l'.value)
  }

  /** `q'`, `caps'` offer at least as much goodput, raw ceiling, freedom and advertised capability. */
  ghost predicate Grows(q: Query, caps: seq<AvailableMode>, q': Query, caps': seq<AvailableMode>) {
    && q.goodputMbps <= q'.goodputMbps
    && RawCeilingKbps(q.transport) <= RawCeilingKbps(q'.transport)
    && Looser(q.limits.maxWidth, q'.limits.maxWidth)
    && Looser(q.limits.maxHeight, q'.limits.maxHeight)
    && Looser(q.limits.maxFps, q'.limits.maxFps)
    && q.limits.preferRaw == q'.limits.preferRaw
    && forall a :: a in caps ==> exists b :: b in caps' && Covers(b, a)
  }

  predicate Covers(b: AvailableMode, a: AvailableMode) {
    && (b.width, b.height, b.fps) == (a.width, a.height, a.fps)
    && forall c :: c in a.caps ==> c in b.caps
  }

  lemma UsableMonotone(g: real, g': real)
    requires g <= g'
    ensures UsableKbps(g) <= UsableKbps(g')
  {
  }

  /** Gaining HEVC where only H.264 was offered never prices an encoded rendition out. */
  lemma FeasibleGrows(q: Query, caps: seq<AvailableMode>, q': Query, caps': seq<AvailableMode>, m: Mode)
      returns (m': Mode)
    requires Grows(q, caps, q', caps') && Feasible(q, caps, m)
    ensures Feasible(q', caps', m') && Key(m') == Key(m) && m'.format == m.format
  {
    UsableMonotone(q.goodputMbps, q'.goodputMbps);
    var a :| a in caps && Offers(q, a, m);
    var b :| b in caps' && Covers(b, a);
    if m.format == Raw {
      m' := RawMode(b);
    } else {
      TargetsBelowRaw(a.width, a.height, a.fps);
      m' := EncodedMode(b, EncoderOf(b).value);
    }
    assert Offers(q', b, m');
  }

  lemma ChosenIsFeasible(q: Query, caps: seq<AvailableMode>, m: Mode)
    requires Feasible(q, caps, m)
    ensures Feasible(q, caps, Chosen(q, caps))
    ensures !q.limits.preferRaw ==> Key(m) <= Key(Chosen(q, caps))
  {
    SomeEligibleIff(q, caps);
    ChosenIsArgmax(q, caps);
    assert !q.limits.preferRaw ==> Eligible(q, caps, m);
  }

  /** While something fits, growing the link, limits or capabilities never lowers the choice. */
  lemma ChoiceNeverFalls(q: Query, caps: seq<AvailableMode>, q': Query, caps': seq<AvailableMode>)
    requires Grows(q, caps, q', caps') && exists m :: Feasible(q, caps, m)
    ensures !q.limits.preferRaw ==> Key(Chosen(q, caps)) <= Key(Chosen(q', caps'))
    ensures q.limits.preferRaw && Chosen(q, caps).format == Raw ==>
      Chosen(q', caps').format == Raw && Key(Chosen(q, caps)) <= Key(Chosen(q', caps'))
  {
    var m :| Feasible(q, caps, m);
    ChosenIsFeasible(q, caps, m);
    var twin := FeasibleGrows(q, caps, q', caps', Chosen(q, caps));
    ChosenIsFeasible(q', caps', twin);
    if q.limits.preferRaw && twin.format == Raw {
      ChosenAmongRaw(q', caps', twin);
    }
  }

  /** The fallback outranks small modes, so growth out of "nothing fits" can lower the choice... */
  lemma GrowthFromNothingCanFall()
    ensures var tiny := [AvailableMode(320, 240, 15, [CapHevc])];
      var q, q' := Query(0.0, WiFi, UserLimits(None, None, None, false)),
                   Query(1.0, WiFi, UserLimits(None, None, None, false));
      && Grows(q, tiny, q', tiny)
      && Key(Chosen(q', tiny)) < Key(Chosen(q, tiny))
  {
    var tiny := [AvailableMode(320, 240, 15, [CapHevc])];
    var q := Query(0.0, WiFi, UserLimits(None, None, None, false));
    var q' := Query(1.0, WiFi, UserLimits(None, None, None, false));
    assert Covers(tiny[0], tiny[0]);
    assert tiny[..0] == [];
    assert HevcTargetKbps(320, 240, 15) == 450;
    assert UsableKbps(0.0) == 0 && UsableKbps(1.0) == 700;
    assert Candidates(q, tiny) == [];
    assert Candidates(q', tiny) == [EncodedMode(tiny[0], Hevc)];
  }

  /** ...and, with raw not preferred, it falls in no other case. */
  lemma ChoiceFallsIff(q: Query, caps: seq<AvailableMode>, q': Query, caps': seq<AvailableMode>)
    requires Grows(q, caps, q', caps') && !q.limits.preferRaw
    ensures Key(Chosen(q', caps')) < Key(Chosen(q, caps)) <==>
      && (forall m :: !Feasible(q, caps, m))
      && (exists m :: Feasible(q', caps', m))
      && (forall m :: Feasible(q', caps', m) ==> Key(m) < Key(SAFE_FALLBACK))
  {
    SomeEligibleIff(q, caps);
    SomeEligibleIff(q', caps');
    ChosenIsArgmax(q, caps);
    ChosenIsArgmax(q', caps');
    if exists m :: Feasible(q, caps, m) {
      ChoiceNeverFalls(q, caps, q', caps');
    }
  }

  /**
   * With raw preferred the choice falls on growth in exactly two cases: nothing fitted and all that is
   * now eligible ranks below the fallback, or no raw mode fitted and the ones that now do all rank below
   * something that fitted before.
   */
  lemma RawChoiceFallsIff(q: Query, caps: seq<AvailableMode>, q': Query, caps': seq<AvailableMode>)
    requires Grows(q, caps, q', caps') && q.limits.preferRaw
    ensures Key(Chosen(q', caps')) < Key(Chosen(q, caps)) <==>
      || (&& (forall m :: !Feasible(q, caps, m)) && (exists m :: Feasible(q', caps', m))
          && (forall m :: Eligible(q', caps', m) ==> Key(m) < Key(SAFE_FALLBACK)))
      || (&& (forall m :: !RawFeasible(q, caps, m)) && (exists r :: RawFeasible(q', caps', r))
          && (exists m :: Feasible(q, caps, m)
                && forall r :: RawFeasible(q', caps', r) ==> Key(r) < Key(m)))
  {
    SomeEligibleIff(q, caps);
    SomeEligibleIff(q', caps');
    ChosenIsArgmax(q, caps);
    ChosenIsArgmax(q', caps');
    if m :| Feasible(q, caps, m) {
      RawFallsFromSomething(q, caps, q', caps', m);
    }
  }

  lemma ChosenAmongFeasible(q: Query, caps: seq<AvailableMode>, m: Mode)
    requires Feasible(q, caps, m) && forall r :: !RawFeasible(q, caps, r)
    ensures Feasible(q, caps, Chosen(q, caps)) && Key(m) <= Key(Chosen(q, caps))
  {
    assert Eligible(q, caps, m);
    ChosenIsArgmax(q, caps);
  }

  lemma ChosenAmongRaw(q: Query, caps: seq<AvailableMode>, r: Mode)
    requires q.limits.preferRaw && RawFeasible(q, caps, r)
    ensures RawFeasible(q, caps, Chosen(q, caps)) && Key(r) <= Key(Chosen(q, caps))
  {
    assert Eligible(q, caps, r);
    ChosenIsArgmax(q, caps);
  }

  lemma RawStays(q: Query, caps: seq<AvailableMode>, q': Query, caps': seq<AvailableMode>, r: Mode)
    requires Grows(q, caps, q', caps') && q.limits.preferRaw && RawFeasible(q, caps, r)
    ensures Key(Chosen(q, caps)) <= Key(Chosen(q', caps'))
  {
    ChosenAmongRaw(q, caps, r);
    ChoiceNeverFalls(q, caps, q', caps');
  }

  lemma EncodedStays(q: Query, caps: seq<AvailableMode>, q': Query, caps': seq<AvailableMode>, m: Mode)
    requires Grows(q, caps, q', caps') && q.limits.preferRaw && Feasible(q, caps, m)
    requires forall r :: !RawFeasible(q, caps, r)
    requires forall r :: !RawFeasible(q', caps', r)
    ensures Key(Chosen(q, caps)) <= Key(Chosen(q', caps'))
  {
    ChosenAmongFeasible(q, caps, m);
    var twin := FeasibleGrows(q, caps, q', caps', Chosen(q, caps));
    ChosenAmongFeasible(q', caps', twin);
  }

  lemma RawAppears(q: Query, caps: seq<AvailableMode>, q': Query, caps': seq<AvailableMode>, m: Mode, r: Mode)
    requires q'.limits.preferRaw && Feasible(q, caps, m) && RawFeasible(q', caps', r)
    requires forall x :: !RawFeasible(q, caps, x)
    ensures Key(Chosen(q', caps')) < Key(Chosen(q, caps)) <==>
      exists x :: Feasible(q, caps, x) && forall y :: RawFeasible(q', caps', y) ==> Key(y) < Key(x)
  {
    var best, raw := Chosen(q, caps), Chosen(q', caps');
    ChosenAmongFeasible(q, caps, m);
    ChosenAmongRaw(q', caps', r);
    if Key(raw) < Key(best) {
      forall y | RawFeasible(q', caps', y) ensures Key(y) < Key(best) {
        ChosenAmongRaw(q', caps', y);
      }
    } else {
      forall x | Feasible(q, caps, x) ensures Key(x) <= Key(raw) {
        ChosenAmongFeasible(q, caps, x);
      }
    }
  }

  lemma RawFallsFromSomething(q: Query, caps: seq<AvailableMode>, q': Query, caps': seq<AvailableMode>, m: Mode)
    requires Grows(q, caps, q', caps') && q.limits.preferRaw && Feasible(q, caps, m)
    ensures Key(Chosen(q', caps')) < Key(Chosen(q, caps)) <==>
      && (forall x :: !RawFeasible(q, caps, x)) && (exists r :: RawFeasible(q', caps', r))
      && (exists x :: Feasible(q, caps, x) && forall r :: RawFeasible(q', caps', r) ==> Key(r) < Key(x))
  {
    if r :| RawFeasible(q, caps, r) {
      RawStays(q, caps, q', caps', r);
    } else if r :| RawFeasible(q', caps', r) {
      RawAppears(q, caps, q', caps', m, r);
    } else {
      EncodedStays(q, caps, q', caps', m);
    }
  }

  lemma TwoCandidates(q: Query, a: AvailableMode, b: AvailableMode)
    ensures Candidates(q, [a, b]) == CandidatesOf(q, a) + CandidatesOf(q, b)
  {
    assert [a, b][..1] == [a] && [a][..0] == [];
    assert Candidates(q, [a]) == CandidatesOf(q, a);
  }

  function PreferringRaw(goodputMbps: real): Query {
    Query(goodputMbps, Usb2, UserLimits(None, None, None, true))
  }

  const SMALL_RAW := AvailableMode(640, 480, 30, [CapRawNv12])

  const LARGE_HEVC := AvailableMode(1920, 1080, 30, [CapHevc])

  /** A link that grows enough for a small raw mode loses its large encoded one. */
  lemma RawPreferenceCanFall()
    ensures var caps, q, q' := [SMALL_RAW, LARGE_HEVC], PreferringRaw(100.0), PreferringRaw(200.0);
      && Grows(q, caps, q', caps)
      && Chosen(q, caps) == EncodedMode(LARGE_HEVC, Hevc) && Chosen(q', caps) == RawMode(SMALL_RAW)
      && Key(Chosen(q', caps)) < Key(Chosen(q, caps))
  {
    assert forall a :: a in [SMALL_RAW, LARGE_HEVC] ==> Covers(a, a);
    EncodedAt100();
    RawAt200();
  }

  lemma EncodedAt100()
    ensures Chosen(PreferringRaw(100.0), [SMALL_RAW, LARGE_HEVC]) == EncodedMode(LARGE_HEVC, Hevc)
  {
    var q := PreferringRaw(100.0);
    assert UsableKbps(100.0) == 70_000;
    assert RawBitrateKbps(640, 480, 30) == 110_592 && HevcTargetKbps(1920, 1080, 30) == 30_000;
    TwoCandidates(q, SMALL_RAW, LARGE_HEVC);
    assert CandidatesOf(q, SMALL_RAW) == [] && CandidatesOf(q, LARGE_HEVC) == [EncodedMode(LARGE_HEVC, Hevc)];
    OnlyRaw(RawMode(SMALL_RAW), EncodedMode(LARGE_HEVC, Hevc));
  }

  lemma RawAt200()
    ensures Chosen(PreferringRaw(200.0), [SMALL_RAW, LARGE_HEVC]) == RawMode(SMALL_RAW)
  {
    var q := PreferringRaw(200.0);
    assert UsableKbps(200.0) == 140_000;
    assert RawBitrateKbps(640, 480, 30) == 110_592 && HevcTargetKbps(1920, 1080, 30) == 30_000;
    TwoCandidates(q, SMALL_RAW, LARGE_HEVC);
    assert CandidatesOf(q, SMALL_RAW) == [RawMode(SMALL_RAW)];
    assert CandidatesOf(q, LARGE_HEVC) == [EncodedMode(LARGE_HEVC, Hevc)];
    OnlyRaw(RawMode(SMALL_RAW), EncodedMode(LARGE_HEVC, Hevc));
  }

  lemma OnlyRaw(r: Mode, e: Mode)
    requires r.format == Raw && e.format == Encoded
    ensures RawOnly([r, e]) == [r] && RawOnly([e]) == []
  {
    assert [r, e][..1] == [r] && [r][..0] == [] && [e][..0] == [];
    assert RawOnly([r]) == [r];
  }

  // ------------------------------------------------------ raw is optional

  function WithoutRaw(caps: seq<AvailableMode>): (r: seq<AvailableMode>)
    ensures |r| == |caps|
    ensures forall i :: 0 <= i < |caps| ==> r[i] == caps[i].(caps := NonRaw(caps[i].caps))
  {
    seq(|caps|, i requires 0 <= i < |caps| => caps[i].(caps := NonRaw(caps[i].caps)))
  }

  function NonRaw(cs: seq<Capability>): (r: seq<Capability>)
    ensures forall c :: c in r <==> c in cs && c != CapRawNv12
  {
    if cs == [] then []
    else NonRaw(cs[..|cs| - 1]) + if cs[|cs| - 1] == CapRawNv12 then [] else [cs[|cs| - 1]]
  }

  /** Whatever raw mode fits, the same picture fits encoded. */
  lemma EncodedTwin(q: Query, a: AvailableMode)
    requires RawFits(q, a) && EncoderOf(a).Some?
    ensures EncodedFits(q, a)
  {
    TargetsBelowRaw(a.width, a.height, a.fps);
  }

  lemma PlainOffer(q: Query, a: AvailableMode, m: Mode)
    requires EncoderOf(a).Some? && Offers(q, a, m)
    ensures var b := a.(caps := NonRaw(a.caps));
      EncoderOf(b) == EncoderOf(a) && Offers(q, b, EncodedMode(a, EncoderOf(a).value))
    ensures PictureKey(EncodedMode(a, EncoderOf(a).value)) == PictureKey(m)
  {
    if RawFits(q, a) {
      EncodedTwin(q, a);
    }
  }

  lemma PlainRendition(q: Query, caps: seq<AvailableMode>, m: Mode) returns (n: Mode)
    requires forall a :: a in caps ==> EncoderOf(a).Some?
    requires Feasible(q, caps, m)
    ensures Feasible(q, WithoutRaw(caps), n) && PictureKey(n) == PictureKey(m)
  {
    var plain := WithoutRaw(caps);
    var a :| a in caps && Offers(q, a, m);
    var i :| 0 <= i < |caps| && caps[i] == a;
    PlainOffer(q, a, m);
    n := EncodedMode(a, EncoderOf(a).value);
    assert plain[i] in plain && Offers(q, plain[i], n);
  }

  lemma PlainIsFeasible(q: Query, caps: seq<AvailableMode>, n: Mode)
    requires Feasible(q, WithoutRaw(caps), n)
    ensures Feasible(q, caps, n)
  {
    var plain := WithoutRaw(caps);
    var b :| b in plain && Offers(q, b, n);
    var i :| 0 <= i < |plain| && plain[i] == b;
    assert caps[i] in caps && Offers(q, caps[i], n);
  }

  /** With an encoder everywhere and raw not preferred, raw never buys a bigger or faster picture. */
  lemma RawNeverImprovesPicture(q: Query, caps: seq<AvailableMode>)
    requires !q.limits.preferRaw
    requires forall a :: a in caps ==> EncoderOf(a).Some?
    ensures var m, n := Chosen(q, caps), Chosen(q, WithoutRaw(caps));
      m.width * m.height == n.width * n.height && m.fps == n.fps
  {
    var plain := WithoutRaw(caps);
    KeyIsLexicographic(Chosen(q, caps), Chosen(q, plain));
    KeyIsLexicographic(Chosen(q, plain), Chosen(q, caps));
    ChosenIsArgmax(q, caps);
    ChosenIsArgmax(q, plain);
    if m :| Feasible(q, caps, m) {
      SomeEligibleIff(q, caps);
      var n := PlainRendition(q, caps, Chosen(q, caps));
      SomeEligibleIff(q, plain);
      assert Eligible(q, plain, n);
      PlainIsFeasible(q, caps, Chosen(q, plain));
      assert Eligible(q, caps, Chosen(q, plain));
    } else if n :| Feasible(q, plain, n) {
      PlainIsFeasible(q, caps, n);
    }
  }
}
