/** The live adaptation controller: bitrate ladder, cooldowns, stability counter. */
module Adaptation {
  import opened Common
  import opened Protocol
  import opened Tables

  const STABLE_SAMPLES_BEFORE_STEPUP := 4
  const STEPUP_COOLDOWN_MS := 5_000
  const STEPDOWN_COOLDOWN_MS := 2_000

  /** One call's input; `now` is a monotonic clock reading in milliseconds. */
  datatype Sample = Sample(telemetry: Telemetry, rttMs: real, now: nat)

  datatype Action = Stay | StepUp(mode: Mode) | StepDown(mode: Mode)

  // ---------------------------------------------------------------- ladder

  function EncodedTarget(m: Mode): u32 {
    var target := if m.codec == H264 then H264TargetKbps(m.width, m.height, m.fps)
                  else HevcTargetKbps(m.width, m.height, m.fps);
    Min(target, U32_MAX)
  }

  function Retarget(m: Mode): Mode {
    if m.format == Encoded then m.(bitrateKbps := EncodedTarget(m)) else m
  }

  /** `b * 3 / 4` in 32-bit wrapping arithmetic. */
  function ThreeQuarters(b: u32): u32 { b * 3 % (U32_MAX + 1) / 4 }

  function NextLower(m: Mode): Option<Mode> {
    if m.fps > 30 then Some(Retarget(m.(fps := 30)))
    else if m.format == Encoded && m.bitrateKbps > 1_000 then
      Some(m.(bitrateKbps := ThreeQuarters(m.bitrateKbps)))
    else if m.format == Raw then Some(Retarget(m.(format := Encoded, codec := Hevc)))
    else
      match (m.width, m.height)
      case (3840, 2160) => Some(Retarget(m.(width := 1920, height := 1080)))
      case (1920, 1080) => Some(Retarget(m.(width := 1280, height := 720)))
      case _ => None
  }

  function NextHigher(m: Mode): Option<Mode> {
    if m.fps == 30 then Some(Retarget(m.(fps := 60)))
    else
      match (m.width, m.height)
      case (1280, 720) => Some(Retarget(m.(width := 1920, height := 1080)))
      case (1920, 1080) => Some(Retarget(m.(width := 3840, height := 2160)))
      case _ => None
  }

  function ResolutionRank(m: Mode): nat {
    match (m.width, m.height)
    case (3840, 2160) => 2
    case (1920, 1080) => 1
    case _ => 0
  }

  function RawRank(m: Mode): nat { if m.format == Raw then 1 else 0 }

  /** Every rung of the ladder is strictly lower in (raw?, resolution, fps, bitrate). */
  lemma LowerDescends(m: Mode)
    requires NextLower(m).Some?
    ensures var n := NextLower(m).value;
      || RawRank(n) < RawRank(m)
      || (RawRank(n) == RawRank(m) && ResolutionRank(n) < ResolutionRank(m))
      || (RawRank(n) == RawRank(m) && ResolutionRank(n) == ResolutionRank(m) && n.fps < m.fps)
      || (RawRank(n) == RawRank(m) && ResolutionRank(n) == ResolutionRank(m) && n.fps == m.fps
          && n.bitrateKbps < m.bitrateKbps)
  {
  }

  /** All modes below `m`, in the order repeated step-downs visit them. */
  function Ladder(m: Mode): (rungs: seq<Mode>)
    ensures NextLower(Last(m, rungs)).None?
    ensures forall i :: 0 <= i < |rungs| ==> NextLower(if i == 0 then m else rungs[i - 1]) == Some(rungs[i])
    decreases RawRank(m), ResolutionRank(m), m.fps, m.bitrateKbps
  {
    match NextLower(m)
    case None => []
    case Some(n) =>
      LowerDescends(m);
      [n] + Ladder(n)
  }

  function Last(m: Mode, rungs: seq<Mode>): Mode {
    if rungs == [] then m else rungs[|rungs| - 1]
  }

  function Floor(m: Mode): Mode { Last(m, Ladder(m)) }

  function DownLeft(m: Mode): nat { |Ladder(m)| }

  function UpLeft(m: Mode): nat {
    (if m.fps == 30 then 1 else 0)
    + (if (m.width, m.height) == (1280, 720) then 2
       else if (m.width, m.height) == (1920, 1080) then 1 else 0)
  }

  /** The ladder bottoms out exactly at cheap, slow, encoded modes of no canonical higher size. */
  lemma BottomIff(m: Mode)
    ensures NextLower(m).None? <==>
      && m.format == Encoded && m.fps <= 30 && m.bitrateKbps <= 1_000
      && ResolutionRank(m) == 0
    ensures NextHigher(m).None? <==> UpLeft(m) == 0
    ensures NextHigher(m).Some? ==> UpLeft(NextHigher(m).value) == UpLeft(m) - 1
    ensures UpLeft(m) <= 3
  {
  }

  /** A step-down may raise the bitrate: a resolution drop resets it to the table target. */
  lemma StepDownCanRaiseBitrate()
    ensures NextLower(Mode(Encoded, Hevc, 1920, 1080, 30, 949, true))
         == Some(Mode(Encoded, Hevc, 1280, 720, 30, 12_000, true))
  {
  }

  /** The canonical size below, if there is one. */
  function Smaller(m: Mode): Mode {
    match (m.width, m.height)
    case (3840, 2160) => m.(width := 1920, height := 1080)
    case (1920, 1080) => m.(width := 1280, height := 720)
    case _ => m
  }

  /**
   * ...exactly when the step retargets the mode and the target is dearer than the bitrate it replaces:
   * a frame-rate drop of an encoded mode, the move from raw to HEVC, or the resolution drop of a mode
   * whose bitrate has bottomed out.
   */
  lemma StepDownRaisesBitrateIff(m: Mode)
    requires NextLower(m).Some?
    ensures NextLower(m).value.bitrateKbps > m.bitrateKbps <==>
      || (m.format == Encoded && m.fps > 30 && EncodedTarget(m.(fps := 30)) > m.bitrateKbps)
      || (m.format == Raw && m.fps <= 30 && EncodedTarget(m.(codec := Hevc)) > m.bitrateKbps)
      || (m.format == Encoded && m.fps <= 30 && m.bitrateKbps <= 1_000
          && EncodedTarget(Smaller(m)) > m.bitrateKbps)
  {
  }

  /** What every mode on any path from the default mode satisfies. */
  predicate OnLadder(m: Mode) {
    && m.format == Encoded && m.codec == Hevc && m.fullRange
    && (m.fps == 30 || m.fps == 60)
    && ((m.width, m.height) == (1280, 720) || (m.width, m.height) == (1920, 1080)
        || (m.width, m.height) == (3840, 2160))
    && m.bitrateKbps <= EncodedTarget(m)
    && (m.fps == 60 ==> m.bitrateKbps == EncodedTarget(m))
    && (m.fps == 30 && m.width == 1280 ==>
          m.bitrateKbps in {12_000, 9_000, 6_750, 5_062, 3_796, 2_847, 2_135, 1_601, 1_200, 900})
  }

  lemma OnLadderClosed(m: Mode)
    requires OnLadder(m)
    ensures NextLower(m).Some? ==> OnLadder(NextLower(m).value)
    ensures NextHigher(m).Some? ==> OnLadder(NextHigher(m).value)
    ensures NextLower(m).None? ==> m == Mode(Encoded, Hevc, 1280, 720, 30, 900, true)
  {
    if m.fps == 60 {
    } else if m.width == 1280 {
    } else if m.bitrateKbps > 1_000 {
    } else {
    }
  }

  /** On the default ladder only the resolution drops of a bottomed-out mode raise the bitrate. */
  lemma LadderRaisesBitrateIff(m: Mode)
    requires OnLadder(m) && NextLower(m).Some?
    ensures NextLower(m).value.bitrateKbps > m.bitrateKbps <==> m.bitrateKbps <= 1_000
  {
  }

  /** A canonical streaming mode. */
  function HevcAt(width: u16, height: u16, fps: u16, kbps: u32): Mode {
    Mode(Encoded, Hevc, width, height, fps, kbps, true)
  }

  /** The rung above, for the default ladder: the frame rate rises first, then the size, at table targets. */
  lemma RungAbove(m: Mode)
    requires OnLadder(m)
    ensures m.fps == 30 && m.width == 1280 ==> NextHigher(m) == Some(HevcAt(1280, 720, 60, 20_000))
    ensures m.fps == 30 && m.width == 1920 ==> NextHigher(m) == Some(HevcAt(1920, 1080, 60, 50_000))
    ensures m.fps == 30 && m.width == 3840 ==> NextHigher(m) == Some(HevcAt(3840, 2160, 60, 194_400))
    ensures m.fps == 60 && m.width == 1280 ==> NextHigher(m) == Some(HevcAt(1920, 1080, 60, 50_000))
    ensures m.fps == 60 && m.width == 1920 ==> NextHigher(m) == Some(HevcAt(3840, 2160, 60, 194_400))
    ensures m.fps == 60 && m.width == 3840 ==> NextHigher(m) == None
  {
  }

  /** The rung below: the frame rate falls first, then the bitrate by quarters, then the size. */
  lemma RungBelow(m: Mode)
    requires OnLadder(m)
    ensures m.fps == 60 && m.width == 1280 ==> NextLower(m) == Some(HevcAt(1280, 720, 30, 12_000))
    ensures m.fps == 60 && m.width == 1920 ==> NextLower(m) == Some(HevcAt(1920, 1080, 30, 30_000))
    ensures m.fps == 60 && m.width == 3840 ==> NextLower(m) == Some(HevcAt(3840, 2160, 30, 90_000))
    ensures m.fps == 30 && m.bitrateKbps > 1_000 ==>
      NextLower(m) == Some(HevcAt(m.width, m.height, 30, m.bitrateKbps * 3 / 4))
    ensures m.fps == 30 && m.bitrateKbps <= 1_000 && m.width == 3840 ==>
      NextLower(m) == Some(HevcAt(1920, 1080, 30, 30_000))
    ensures m.fps == 30 && m.bitrateKbps <= 1_000 && m.width == 1920 ==>
      NextLower(m) == Some(HevcAt(1280, 720, 30, 12_000))
    ensures m.fps == 30 && m.bitrateKbps <= 1_000 && m.width == 1280 ==> NextLower(m) == None
  {
  }

  lemma FloorStep(m: Mode)
    ensures Floor(m) == match NextLower(m) case Some(n) => Floor(n) case None => m
  {
  }

  lemma {:induction false} OnLadderFloor(m: Mode)
    requires OnLadder(m)
    ensures Floor(m) == Mode(Encoded, Hevc, 1280, 720, 30, 900, true)
    decreases RawRank(m), ResolutionRank(m), m.fps, m.bitrateKbps
  {
    OnLadderClosed(m);
    FloorStep(m);
    if NextLower(m).Some? {
      LowerDescends(m);
      OnLadderFloor(NextLower(m).value);
    }
  }

  /** `bitrate * 3` fits in 32 bits wherever the ladder multiplies it. */
  predicate MultiplySafe(m: Mode) { m.format == Encoded ==> m.bitrateKbps * 3 <= U32_MAX }

  lemma TargetSmall(m: Mode)
    requires m.fps <= 60 || ResolutionRank(m) > 0
    ensures EncodedTarget(m) * 3 <= U32_MAX
  {
    var area := m.width * m.height;
    if m.fps <= 60 {
      MulMono(m.width, U16_MAX, m.height);
      MulMono(m.height, U16_MAX, U16_MAX);
      MulMono(m.fps, 60, area);
      assert area * m.fps <= 60 * (U16_MAX * U16_MAX);
    } else {
      assert area <= 8_294_400;
      MulMono(area, 8_294_400, m.fps);
      assert area * m.fps <= 8_294_400 * U16_MAX;
    }
    assert HevcTargetKbps(m.width, m.height, m.fps) <= 212_400_000;
  }

  lemma RetargetSafe(m: Mode)
    requires m.fps <= 60 || ResolutionRank(m) > 0
    ensures MultiplySafe(Retarget(m))
  {
    TargetSmall(m);
  }

  lemma MultiplySafeLower(m: Mode)
    requires MultiplySafe(m)
    ensures NextLower(m).Some? ==> MultiplySafe(NextLower(m).value)
    ensures m.format == Encoded ==> ThreeQuarters(m.bitrateKbps) == m.bitrateKbps * 3 / 4
  {
    if m.fps > 30 {
      RetargetSafe(m.(fps := 30));
    } else if m.format == Raw {
      RetargetSafe(m.(format := Encoded, codec := Hevc));
    } else if m.bitrateKbps <= 1_000 {
      RetargetSafe(m.(width := 1920, height := 1080));
      RetargetSafe(m.(width := 1280, height := 720));
    }
  }

  lemma MultiplySafeHigher(m: Mode)
    requires MultiplySafe(m)
    ensures NextHigher(m).Some? ==> MultiplySafe(NextHigher(m).value)
  {
    if m.fps == 30 {
      RetargetSafe(m.(fps := 60));
    } else {
      RetargetSafe(m.(width := 1920, height := 1080));
      RetargetSafe(m.(width := 3840, height := 2160));
    }
  }

  // ------------------------------------------------------------ controller

  datatype Controller = Controller(
    current: Mode, stable: u32, baseRttMs: real, lastDropCount: u64,
    lastActionAt: Option<nat>, startAt: nat)

  function Fresh(initial: Mode, startAt: nat): Controller {
    Controller(initial, 0, 0.0, 0, None, startAt)
  }

  function Reference(c: Controller): nat {
    if c.lastActionAt.Some? then c.lastActionAt.value else c.startAt
  }

  /** A clock reading before the reference counts as no time elapsed. */
  predicate CooldownElapsed(c: Controller, now: nat, ms: nat) {
    (if now >= Reference(c) then now - Reference(c) else 0) >= ms
  }

  predicate IsCongested(c: Controller, t: Telemetry, rttMs: real) {
    || t.queueDepth > 0
    || t.dropCount > c.lastDropCount
    || (c.baseRttMs > 0.0 && rttMs > c.baseRttMs * 2.0)
  }

  datatype Outcome = Outcome(next: Controller, action: Action)

  function OnCongested(c: Controller, s: Sample): Outcome {
    if !CooldownElapsed(c, s.now, STEPDOWN_COOLDOWN_MS) then Outcome(c, Stay)
    else
      var c1 := c.(stable := 0, lastDropCount := s.telemetry.dropCount);
      match NextLower(c.current)
      case Some(m) => Outcome(c1.(current := m, lastActionAt := Some(s.now)), StepDown(m))
      case None => Outcome(c1, Stay)
  }

  function OnStable(c: Controller, s: Sample): Outcome {
    var c1 := c.(
      baseRttMs := if c.baseRttMs == 0.0 then s.rttMs else 0.8 * c.baseRttMs + 0.2 * s.rttMs,
      lastDropCount := s.telemetry.dropCount,
      stable := Min(c.stable + 1, U32_MAX));
    if c1.stable >= STABLE_SAMPLES_BEFORE_STEPUP && CooldownElapsed(c, s.now, STEPUP_COOLDOWN_MS) then
      match NextHigher(c.current)
      case Some(m) => Outcome(c1.(stable := 0, current := m, lastActionAt := Some(s.now)), StepUp(m))
      case None => Outcome(c1, Stay)
    else Outcome(c1, Stay)
  }

  function Step(c: Controller, s: Sample): Outcome {
    if IsCongested(c, s.telemetry, s.rttMs) then OnCongested(c, s) else OnStable(c, s)
  }

  class AdaptationState {
    var current: Mode
    var consecutiveStable: u32
    var baseRttMs: real
    var lastDropCount: u64
    var lastActionAt: Option<nat>
    var startAt: nat

    ghost function View(): Controller
      reads this
    {
      Controller(current, consecutiveStable, baseRttMs, lastDropCount, lastActionAt, startAt)
    }

    constructor (initial: Mode, startAt: nat)
      ensures View() == Fresh(initial, startAt)
    {
      current, consecutiveStable, baseRttMs := initial, 0, 0.0;
      lastDropCount, lastActionAt := 0, None;
      this.startAt := startAt;
    }

    method CooledDown(now: nat, ms: nat) returns (elapsed: bool)
      ensures elapsed == CooldownElapsed(View(), now, ms)
    {
      var reference := match lastActionAt case Some(t) => t case None => startAt;
      elapsed := (if now < reference then 0 else now - reference) >= ms;
    }

    /** One sample moves the controller exactly as `Step` says, and reports that step's action. */
    method Observe(s: Sample) returns (action: Action)
      modifies this
      ensures Outcome(View(), action) == Step(old(View()), s)
    {
      var t := s.telemetry;
      var congested := t.queueDepth > 0 || t.dropCount > lastDropCount
                       || (baseRttMs > 0.0 && s.rttMs > baseRttMs * 2.0);
      if congested {
        var cooled := CooledDown(s.now, STEPDOWN_COOLDOWN_MS);
        if !cooled {
          return Stay;
        }
        consecutiveStable := 0;
        lastDropCount := t.dropCount;
        var lower := NextLower(current);
        if lower.Some? {
          lastActionAt := Some(s.now);
          current := lower.value;
          return StepDown(lower.value);
        }
        return Stay;
      }
      if baseRttMs == 0.0 {
        baseRttMs := s.rttMs;
      } else {
        baseRttMs := 0.8 * baseRttMs + 0.2 * s.rttMs;
      }
      lastDropCount := t.dropCount;
      if consecutiveStable < U32_MAX {
        consecutiveStable := consecutiveStable + 1;
      }
      var cooled := CooledDown(s.now, STEPUP_COOLDOWN_MS);
      if consecutiveStable >= STABLE_SAMPLES_BEFORE_STEPUP && cooled {
        var higher := NextHigher(current);
        if higher.Some? {
          consecutiveStable := 0;
          lastActionAt := Some(s.now);
          current := higher.value;
          return StepUp(higher.value);
        }
      }
      return Stay;
    }
  }

  /** Owns one controller and forwards each step as one SET_MODE on an open outbound queue. */
  class AdaptationDriver {
    const state: AdaptationState
    const channelOpen: bool
    var outbound: seq<Mode>

    constructor (initial: Mode, startAt: nat, channelOpen: bool)
      ensures state.View() == Fresh(initial, startAt) && outbound == []
      ensures fresh(state) && this.channelOpen == channelOpen
    {
      state := new AdaptationState(initial, startAt);
      this.channelOpen := channelOpen;
      outbound := [];
    }

    method Observe(s: Sample)
      modifies this, state
      ensures state.View() == Step(old(state.View()), s).next
      ensures outbound == old(outbound)
        + if channelOpen then Emitted(Step(old(state.View()), s).action) else []
    {
      var action := state.Observe(s);
      match action
      case Stay =>
      case StepDown(m) => if channelOpen { outbound := outbound + [m]; }
      case StepUp(m) => if channelOpen { outbound := outbound + [m]; }
    }

    /** Draining a queue of samples sends exactly the run's steps, in order. */
    method ObserveAll(ss: seq<Sample>)
      modifies this, state
      ensures state.View() == Exec(old(state.View()), ss)
      ensures outbound == old(outbound)
        + if channelOpen then Modes(Trace(old(state.View()), ss)) else []
    {
      for i := 0 to |ss|
        invariant state.View() == Exec(old(state.View()), ss[..i])
        invariant outbound == old(outbound)
          + if channelOpen then Modes(Trace(old(state.View()), ss[..i])) else []
      {
        OneMoreSample(old(state.View()), ss, i);
        ghost var sent := Modes(Trace(old(state.View()), ss[..i]));
        ghost var more := Emitted(Step(state.View(), ss[i]).action);
        Observe(ss[i]);
        assert old(outbound) + sent + more == old(outbound) + (sent + more);
      }
      assert ss[..|ss|] == ss;
    }
  }

  function Emitted(a: Action): seq<Mode> {
    match a
    case Stay => []
    case StepUp(m) => [m]
    case StepDown(m) => [m]
  }

  // ------------------------------------------------------------------ runs

  function Exec(c: Controller, ss: seq<Sample>): Controller {
    if ss == [] then c
    else Step(Exec(c, ss[..|ss| - 1]), ss[|ss| - 1]).next
  }

  /** What an observer of one call sees. */
  datatype Record = Record(congested: bool, cooled: bool, action: Action, now: nat)

  function RecordOf(c: Controller, s: Sample): Record {
    Record(IsCongested(c, s.telemetry, s.rttMs),
           CooldownElapsed(c, s.now, STEPDOWN_COOLDOWN_MS), Step(c, s).action, s.now)
  }

  function Trace(c: Controller, ss: seq<Sample>): (tr: seq<Record>)
    ensures |tr| == |ss|
  {
    if ss == [] then []
    else Trace(c, ss[..|ss| - 1]) + [RecordOf(Exec(c, ss[..|ss| - 1]), ss[|ss| - 1])]
  }

  function Modes(tr: seq<Record>): seq<Mode> {
    if tr == [] then [] else Modes(tr[..|tr| - 1]) + Emitted(tr[|tr| - 1].action)
  }

  lemma OneMoreSample(c: Controller, ss: seq<Sample>, i: nat)
    requires i < |ss|
    ensures var c' := Exec(c, ss[..i]);
      && Exec(c, ss[..i + 1]) == Step(c', ss[i]).next
      && Modes(Trace(c, ss[..i + 1])) == Modes(Trace(c, ss[..i])) + Emitted(Step(c', ss[i]).action)
  {
    assert ss[..i + 1][..i] == ss[..i];
    var tr := Trace(c, ss[..i + 1]);
    assert tr[..i] == Trace(c, ss[..i]);
  }

  lemma {:induction false} ExecConcat(c: Controller, a: seq<Sample>, b: seq<Sample>)
    ensures Exec(c, a + b) == Exec(Exec(c, a), b)
    ensures Trace(c, a + b) == Trace(c, a) + Trace(Exec(c, a), b)
    decreases |b|
  {
    if b == [] {
      assert a + b == a;
    } else {
      assert (a + b)[..|a + b| - 1] == a + b[..|b| - 1];
      ExecConcat(c, a, b[..|b| - 1]);
    }
  }

  lemma {:induction false} TraceAt(c: Controller, ss: seq<Sample>, i: nat)
    requires i < |ss|
    ensures Trace(c, ss)[i] == RecordOf(Exec(c, ss[..i]), ss[i])
    ensures Exec(c, ss[..i + 1]) == Step(Exec(c, ss[..i]), ss[i]).next
    ensures Trace(c, ss)[..i] == Trace(c, ss[..i])
  {
    var prefix := ss[..|ss| - 1];
    if i == |ss| - 1 {
      assert ss[..i + 1] == ss;
    } else {
      TraceAt(c, prefix, i);
      assert prefix[..i] == ss[..i] && prefix[..i + 1] == ss[..i + 1];
    }
  }

  function Cost(tr: seq<Record>): nat {
    if tr == [] then 0
    else Cost(tr[..|tr| - 1])
         + match tr[|tr| - 1].action
           case Stay => 0
           case StepUp(_) => STEPUP_COOLDOWN_MS
           case StepDown(_) => STEPDOWN_COOLDOWN_MS
  }

  /** Each action pays its cooldown out of the time since the previous one. */
  lemma {:induction false} ActionsPayTheirCooldown(c: Controller, ss: seq<Sample>)
    ensures Reference(Exec(c, ss)) >= Reference(c) + Cost(Trace(c, ss))
  {
    if ss != [] {
      ActionsPayTheirCooldown(c, ss[..|ss| - 1]);
    }
  }

  /** From a fresh start, the last action's time bounds 2 s per step-down plus 5 s per step-up. */
  lemma BudgetFromStart(initial: Mode, startAt: nat, ss: seq<Sample>)
    ensures var c := Exec(Fresh(initial, startAt), ss);
      Cost(Trace(Fresh(initial, startAt), ss))
      <= (if c.lastActionAt.Some? then c.lastActionAt.value - startAt else 0)
  {
    var c0 := Fresh(initial, startAt);
    ActionsPayTheirCooldown(c0, ss);
    StartNeverMoves(c0, ss);
  }

  lemma {:induction false} StartNeverMoves(c: Controller, ss: seq<Sample>)
    ensures Exec(c, ss).startAt == c.startAt
  {
    if ss != [] {
      StartNeverMoves(c, ss[..|ss| - 1]);
    }
  }

  /** Between any two actions of any run lies the cooldown of every action after the first. */
  lemma {:induction false} ActionsAreSpaced(c: Controller, ss: seq<Sample>, i: nat, j: nat)
    requires i < j < |ss|
    requires !Trace(c, ss)[i].action.Stay? && !Trace(c, ss)[j].action.Stay?
    ensures ss[j].now >= ss[i].now + Cost(Trace(c, ss)[i + 1..j + 1])
    ensures ss[j].now >= ss[i].now + STEPDOWN_COOLDOWN_MS
    ensures Trace(c, ss)[j].action.StepUp? ==> ss[j].now >= ss[i].now + STEPUP_COOLDOWN_MS
  {
    var mid := Exec(c, ss[..i + 1]);
    var rest := ss[i + 1..j + 1];
    ActionMovesReference(c, ss, i);
    TraceSlice(c, ss, i + 1, j + 1);
    assert rest[|rest| - 1] == ss[j] && Trace(mid, rest)[|rest| - 1] == Trace(c, ss)[j];
    LastActionPays(mid, rest);
  }

  lemma {:induction false} ActionMovesReference(c: Controller, ss: seq<Sample>, i: nat)
    requires i < |ss| && !Trace(c, ss)[i].action.Stay?
    ensures Reference(Exec(c, ss[..i + 1])) == ss[i].now
  {
    TraceAt(c, ss, i);
  }

  lemma TraceSlice(c: Controller, ss: seq<Sample>, i: nat, j: nat)
    requires i <= j <= |ss|
    ensures Trace(c, ss)[i..j] == Trace(Exec(c, ss[..i]), ss[i..j])
    ensures i < j ==> Trace(Exec(c, ss[..i]), ss[i..j])[j - i - 1] == Trace(c, ss)[j - 1]
  {
    assert ss == ss[..j] + ss[j..];
    ExecConcat(c, ss[..j], ss[j..]);
    assert ss[..j] == ss[..i] + ss[i..j];
    ExecConcat(c, ss[..i], ss[i..j]);
  }

  /** If a run ends with an action, the clock then shows at least all cooldowns since the start. */
  lemma LastActionPays(c: Controller, ss: seq<Sample>)
    requires ss != [] && !Trace(c, ss)[|ss| - 1].action.Stay?
    ensures ss[|ss| - 1].now >= Reference(c) + Cost(Trace(c, ss))
    ensures Cost(Trace(c, ss)) >= STEPDOWN_COOLDOWN_MS
    ensures Trace(c, ss)[|ss| - 1].action.StepUp? ==> Cost(Trace(c, ss)) >= STEPUP_COOLDOWN_MS
  {
    ActionsPayTheirCooldown(c, ss);
    TraceAt(c, ss, |ss| - 1);
    assert ss[..|ss|] == ss;
  }

  // ------------------------------------------------- stability and memory

  predicate IsReset(r: Record) { !r.action.Stay? || (r.congested && r.cooled) }

  /** Index just past the last reset, 0 if there was none. */
  function SinceReset(tr: seq<Record>): (k: nat)
    ensures k <= |tr|
    ensures k > 0 ==> IsReset(tr[k - 1])
    ensures forall i :: k <= i < |tr| ==> !IsReset(tr[i])
  {
    if tr == [] then 0
    else if IsReset(tr[|tr| - 1]) then |tr|
    else SinceReset(tr[..|tr| - 1])
  }

  function Uncongested(tr: seq<Record>): nat {
    if tr == [] then 0
    else Uncongested(tr[..|tr| - 1]) + if tr[|tr| - 1].congested then 0 else 1
  }

  lemma StableStep(c: Controller, s: Sample)
    ensures var r := RecordOf(c, s);
      Step(c, s).next.stable
      == if IsReset(r) then 0 else if r.congested then c.stable else Min(c.stable + 1, U32_MAX)
  {
  }

  function UncongestedSinceReset(tr: seq<Record>): nat { Uncongested(tr[SinceReset(tr)..]) }

  lemma UncongestedSinceResetSnoc(tr: seq<Record>, r: Record)
    ensures UncongestedSinceReset(tr + [r])
         == if IsReset(r) then 0 else UncongestedSinceReset(tr) + if r.congested then 0 else 1
  {
    var all := tr + [r];
    assert all[..|all| - 1] == tr;
    if !IsReset(r) {
      var suffix := all[SinceReset(tr)..];
      assert suffix[..|suffix| - 1] == tr[SinceReset(tr)..];
    }
  }

  /** The counter is the number of uncongested samples since the last reset, saturated. */
  lemma {:induction false} StableCountsHistory(c: Controller, ss: seq<Sample>)
    requires c.stable == 0
    ensures Exec(c, ss).stable == Min(UncongestedSinceReset(Trace(c, ss)), U32_MAX)
  {
    if ss != [] {
      var prefix, last := ss[..|ss| - 1], ss[|ss| - 1];
      StableCountsHistory(c, prefix);
      StableStep(Exec(c, prefix), last);
      UncongestedSinceResetSnoc(Trace(c, prefix), RecordOf(Exec(c, prefix), last));
    }
  }

  /** Every step-up has four uncongested samples since the last reset and five quiet seconds. */
  lemma StepUpIsEarned(c: Controller, ss: seq<Sample>, i: nat)
    requires c.stable == 0
    requires i < |ss| && Trace(c, ss)[i].action.StepUp?
    ensures UncongestedSinceReset(Trace(c, ss)[..i]) + 1 >= STABLE_SAMPLES_BEFORE_STEPUP
    ensures !Trace(c, ss)[i].congested
    ensures ss[i].now >= Reference(Exec(c, ss[..i])) + STEPUP_COOLDOWN_MS
  {
    TraceAt(c, ss, i);
    StableCountsHistory(c, ss[..i]);
  }

  /** A congested sample inside the 2 s cooldown is ignored outright: the counter survives it. */
  lemma CongestionInCooldownIsInvisible(c: Controller, s: Sample)
    requires IsCongested(c, s.telemetry, s.rttMs)
    ensures Step(c, s).next == c <==>
      || !CooldownElapsed(c, s.now, STEPDOWN_COOLDOWN_MS)
      || (NextLower(c.current).None? && c.stable == 0 && c.lastDropCount == s.telemetry.dropCount)
  {
    if CooldownElapsed(c, s.now, STEPDOWN_COOLDOWN_MS) && NextLower(c.current).Some? {
      LowerDescends(c.current);
    }
  }

  /**
   * A drop first reported inside the cooldown is never forgotten. While the cumulative counter does
   * not decrease, every sample up to the first one past the cooldown leaves the controller untouched,
   * and that one steps down if the ladder has a rung left.
   */
  lemma {:induction false} DropIsRemembered(c: Controller, ss: seq<Sample>, last: Sample)
    requires ss != [] && ss[0].telemetry.dropCount > c.lastDropCount
    requires forall i, j :: 0 <= i <= j < |ss| ==> ss[i].telemetry.dropCount <= ss[j].telemetry.dropCount
    requires ss[|ss| - 1].telemetry.dropCount <= last.telemetry.dropCount
    requires forall i :: 0 <= i < |ss| ==> !CooldownElapsed(c, ss[i].now, STEPDOWN_COOLDOWN_MS)
    requires CooldownElapsed(c, last.now, STEPDOWN_COOLDOWN_MS)
    ensures Exec(c, ss) == c
    ensures forall i :: 0 <= i < |ss| ==> Trace(c, ss)[i].action == Stay
    ensures Step(Exec(c, ss), last).action
         == match NextLower(c.current) case Some(m) => StepDown(m) case None => Stay
  {
    if |ss| == 1 {
      assert ss[..0] == [];
    } else {
      var prefix := ss[..|ss| - 1];
      assert ss[0].telemetry.dropCount <= ss[|ss| - 1].telemetry.dropCount;
      DropIsRemembered(c, prefix, last);
    }
  }

  /** The RTT baseline is unset or within the range of the uncongested RTTs it has averaged. */
  lemma {:induction false} BaselineBounded(c: Controller, ss: seq<Sample>, lo: real, hi: real)
    requires c.baseRttMs == 0.0 || lo <= c.baseRttMs <= hi
    requires forall i :: 0 <= i < |ss| && !Trace(c, ss)[i].congested ==> lo <= ss[i].rttMs <= hi
    ensures Exec(c, ss).baseRttMs == 0.0 || lo <= Exec(c, ss).baseRttMs <= hi
  {
    if ss != [] {
      var prefix := ss[..|ss| - 1];
      assert forall i :: 0 <= i < |prefix| ==> Trace(c, prefix)[i] == Trace(c, ss)[i];
      BaselineBounded(c, prefix, lo, hi);
      assert !Trace(c, ss)[|ss| - 1].congested ==> lo <= ss[|ss| - 1].rttMs <= hi;
    }
  }

  /** Once positive, the baseline grows by at most a fifth per sample. */
  lemma BaselineGrowsSlowly(c: Controller, s: Sample)
    requires c.baseRttMs > 0.0
    ensures Step(c, s).next.baseRttMs <= 1.2 * c.baseRttMs
  {
  }

  /** An uncongested sample moves the baseline a fifth of the way towards its round trip. */
  lemma BaselineMoves(c: Controller, s: Sample)
    ensures var b, b' := c.baseRttMs, Step(c, s).next.baseRttMs;
      if RecordOf(c, s).congested then b' == b
      else if b == 0.0 then b' == s.rttMs
      else 5.0 * (b' - b) == s.rttMs - b
  {
  }

  /** The drop count of the latest sample that was not ignored. */
  function LastHeeded(c: Controller, ss: seq<Sample>): u64 {
    if ss == [] then c.lastDropCount
    else
      var r := RecordOf(Exec(c, ss[..|ss| - 1]), ss[|ss| - 1]);
      if r.congested && !r.cooled then LastHeeded(c, ss[..|ss| - 1]) else ss[|ss| - 1].telemetry.dropCount
  }

  lemma {:induction false} DropCountIsLastHeeded(c: Controller, ss: seq<Sample>)
    ensures Exec(c, ss).lastDropCount == LastHeeded(c, ss)
  {
    if ss != [] {
      DropCountIsLastHeeded(c, ss[..|ss| - 1]);
    }
  }

  // ------------------------------------------------------------- calm runs

  /** No backlog, no new drop, and a round trip at most twice the baseline, if there is one. */
  predicate CalmSample(baseRttMs: real, drops: u64, s: Sample) {
    && s.telemetry.queueDepth == 0 && s.telemetry.dropCount == drops
    && (baseRttMs <= 0.0 || s.rttMs <= 2.0 * baseRttMs)
  }

  predicate CalmRun(c: Controller, ss: seq<Sample>) {
    ss == [] || (CalmRun(c, ss[..|ss| - 1])
                 && CalmSample(Exec(c, ss[..|ss| - 1]).baseRttMs, c.lastDropCount, ss[|ss| - 1]))
  }

  predicate HasRungAbove(m: Mode) {
    m.fps == 30 || (m.width == 1280 && m.height == 720) || (m.width == 1920 && m.height == 1080)
  }

  /**
   * A calm sample never steps down. It steps up exactly when it is at least the fourth in a row, five
   * seconds have passed since the last action, and a rung is left; otherwise it is only counted.
   */
  lemma CalmStep(c: Controller, s: Sample)
    requires CalmSample(c.baseRttMs, c.lastDropCount, s)
    ensures var o := Step(c, s);
      && o.next.lastDropCount == c.lastDropCount
      && if c.stable >= 3 && s.now >= Reference(c) + 5_000 && HasRungAbove(c.current) then
           && NextHigher(c.current).Some? && o.action == StepUp(NextHigher(c.current).value)
           && o.next.current == o.action.mode && o.next.stable == 0 && Reference(o.next) == s.now
         else
           && o.action == Stay && o.next.current == c.current && Reference(o.next) == Reference(c)
           && o.next.stable == Min(c.stable + 1, U32_MAX)
  {
  }

  /** Any one sign of trouble, two seconds after the last action, steps down while a rung is left. */
  lemma StepsDownIff(c: Controller, s: Sample)
    ensures Step(c, s).action.StepDown? <==>
      && (|| s.telemetry.queueDepth > 0
          || s.telemetry.dropCount > c.lastDropCount
          || (c.baseRttMs > 0.0 && s.rttMs > 2.0 * c.baseRttMs))
      && s.now >= Reference(c) + 2_000 && NextLower(c.current).Some?
  {
  }

  lemma {:induction false} CalmKeepsDrops(c: Controller, ss: seq<Sample>)
    requires CalmRun(c, ss)
    ensures Exec(c, ss).lastDropCount == c.lastDropCount
  {
    if ss != [] {
      CalmKeepsDrops(c, ss[..|ss| - 1]);
      CalmStep(Exec(c, ss[..|ss| - 1]), ss[|ss| - 1]);
    }
  }

  /** No calm run ever steps down, whatever its clock readings. */
  lemma {:induction false} CalmNeverStepsDown(c: Controller, ss: seq<Sample>)
    requires CalmRun(c, ss)
    ensures forall i :: 0 <= i < |ss| ==> !Trace(c, ss)[i].action.StepDown?
  {
    if ss != [] {
      var prefix := ss[..|ss| - 1];
      CalmNeverStepsDown(c, prefix);
      CalmKeepsDrops(c, prefix);
      CalmStep(Exec(c, prefix), ss[|ss| - 1]);
    }
  }

  /** Too early to step up: not yet the fourth calm sample, or not yet five seconds after the last action. */
  predicate TooEarly(c: Controller, ss: seq<Sample>) {
    forall i :: 3 <= i < |ss| ==> ss[i].now < Reference(c) + 5_000
  }

  lemma {:induction false} CalmWaits(c: Controller, ss: seq<Sample>)
    requires CalmRun(c, ss) && c.stable == 0 && TooEarly(c, ss)
    ensures var d := Exec(c, ss);
      && d.current == c.current && Reference(d) == Reference(c) && d.stable == Min(|ss|, U32_MAX)
      && d.lastDropCount == c.lastDropCount
    ensures forall i :: 0 <= i < |ss| ==> Trace(c, ss)[i].action == Stay
  {
    if ss != [] {
      var prefix := ss[..|ss| - 1];
      CalmWaits(c, prefix);
      CalmStep(Exec(c, prefix), ss[|ss| - 1]);
    }
  }

  /**
   * A calm link climbs: after a reset, the first calm sample that is at least the fourth and comes five
   * seconds after the last action steps up while a rung is left, and none before it does anything.
   */
  lemma CalmClimbs(c: Controller, ss: seq<Sample>, last: Sample)
    requires CalmRun(c, ss) && c.stable == 0 && TooEarly(c, ss) && |ss| >= 3
    requires CalmSample(Exec(c, ss).baseRttMs, c.lastDropCount, last)
    requires last.now >= Reference(c) + 5_000 && HasRungAbove(c.current)
    ensures forall i :: 0 <= i < |ss| ==> Trace(c, ss)[i].action == Stay
    ensures NextHigher(c.current).Some? && Step(Exec(c, ss), last).action == StepUp(NextHigher(c.current).value)
  {
    CalmWaits(c, ss);
    CalmStep(Exec(c, ss), last);
  }

  /** Samples at least five seconds apart. */
  predicate Spaced(startAt: nat, ss: seq<Sample>) {
    && (ss != [] ==> ss[0].now >= startAt + 5_000)
    && forall i :: 0 < i < |ss| ==> ss[i].now >= ss[i - 1].now + 5_000
  }

  /** Where `n` spaced calm samples take the default mode. */
  function Climbed(n: nat): Mode {
    if n < 4 then DEFAULT_MODE else if n < 8 then HevcAt(1920, 1080, 60, 50_000) else HevcAt(3840, 2160, 60, 194_400)
  }

  function ClimbSent(n: nat): seq<Mode> {
    (if n >= 4 then [HevcAt(1920, 1080, 60, 50_000)] else [])
    + (if n >= 8 then [HevcAt(3840, 2160, 60, 194_400)] else [])
  }

  /** A controller `n` spaced calm samples after the default mode, the last one taken at `lastAt`. */
  predicate ClimbedTo(d: Controller, n: nat, lastAt: nat) {
    && d.current == Climbed(n) && Reference(d) <= lastAt
    && d.stable == Min(if n < 4 then n else if n < 8 then n - 4 else n - 8, U32_MAX)
  }

  lemma ClimbStep(d: Controller, n: nat, lastAt: nat, s: Sample)
    requires ClimbedTo(d, n, lastAt) && s.now >= lastAt + 5_000
    requires CalmSample(d.baseRttMs, d.lastDropCount, s)
    ensures ClimbedTo(Step(d, s).next, n + 1, s.now)
    ensures ClimbSent(n + 1) == ClimbSent(n) + Emitted(Step(d, s).action)
  {
    CalmStep(d, s);
    RungAbove(Climbed(n));
  }

  function LastAt(startAt: nat, ss: seq<Sample>): nat { if ss == [] then startAt else ss[|ss| - 1].now }

  lemma {:induction false} CalmReaches(startAt: nat, ss: seq<Sample>)
    requires CalmRun(Fresh(DEFAULT_MODE, startAt), ss) && Spaced(startAt, ss)
    ensures ClimbedTo(Exec(Fresh(DEFAULT_MODE, startAt), ss), |ss|, LastAt(startAt, ss))
  {
    if ss != [] {
      var c, prefix := Fresh(DEFAULT_MODE, startAt), ss[..|ss| - 1];
      CalmReaches(startAt, prefix);
      CalmKeepsDrops(c, prefix);
      ClimbStep(Exec(c, prefix), |prefix|, LastAt(startAt, prefix), ss[|ss| - 1]);
    }
  }

  lemma ModesSnoc(c: Controller, ss: seq<Sample>)
    requires ss != []
    ensures var prefix, last := ss[..|ss| - 1], ss[|ss| - 1];
      Modes(Trace(c, ss)) == Modes(Trace(c, prefix)) + Emitted(Step(Exec(c, prefix), last).action)
  {
    var tr := Trace(c, ss);
    assert tr[..|tr| - 1] == Trace(c, ss[..|ss| - 1]);
  }

  /**
   * From the default mode such a run sends exactly 1080p60 at 50000 kbit/s with the fourth sample and
   * 4K60 at 194400 kbit/s with the eighth.
   */
  lemma {:induction false} CalmFromDefault(startAt: nat, ss: seq<Sample>)
    requires CalmRun(Fresh(DEFAULT_MODE, startAt), ss) && Spaced(startAt, ss)
    ensures Modes(Trace(Fresh(DEFAULT_MODE, startAt), ss)) == ClimbSent(|ss|)
    ensures Exec(Fresh(DEFAULT_MODE, startAt), ss).current == Climbed(|ss|)
  {
    CalmReaches(startAt, ss);
    if ss != [] {
      var c, prefix := Fresh(DEFAULT_MODE, startAt), ss[..|ss| - 1];
      CalmFromDefault(startAt, prefix);
      CalmReaches(startAt, prefix);
      CalmKeepsDrops(c, prefix);
      ClimbStep(Exec(c, prefix), |prefix|, LastAt(startAt, prefix), ss[|ss| - 1]);
      ModesSnoc(c, ss);
    }
  }

  // -------------------------------------------------------- ladder in runs

  function Ups(tr: seq<Record>): nat {
    if tr == [] then 0 else Ups(tr[..|tr| - 1]) + if tr[|tr| - 1].action.StepUp? then 1 else 0
  }

  function Downs(tr: seq<Record>): nat {
    if tr == [] then 0 else Downs(tr[..|tr| - 1]) + if tr[|tr| - 1].action.StepDown? then 1 else 0
  }

  /**
   * Exact accounting: without a step-down, each step-up uses one of at most three upward rungs;
   * without a step-up, each step-down uses one rung of the finite ladder.
   */
  lemma {:induction false} RungAccounting(c: Controller, ss: seq<Sample>)
    ensures Downs(Trace(c, ss)) == 0 ==>
      Ups(Trace(c, ss)) + UpLeft(Exec(c, ss).current) == UpLeft(c.current)
    ensures Downs(Trace(c, ss)) == 0 ==> Ups(Trace(c, ss)) <= 3
    ensures Ups(Trace(c, ss)) == 0 ==>
      Downs(Trace(c, ss)) + DownLeft(Exec(c, ss).current) == DownLeft(c.current)
  {
    BottomIff(c.current);
    if ss != [] {
      var prefix := ss[..|ss| - 1];
      RungAccounting(c, prefix);
      assert Trace(c, ss)[..|ss| - 1] == Trace(c, prefix);
      StepUsesRung(Exec(c, prefix), ss[|ss| - 1]);
    }
  }

  lemma StepUsesRung(c: Controller, s: Sample)
    ensures match Step(c, s).action
      case Stay => Step(c, s).next.current == c.current
      case StepUp(m) => m == Step(c, s).next.current && UpLeft(m) + 1 == UpLeft(c.current)
      case StepDown(m) => m == Step(c, s).next.current && DownLeft(m) + 1 == DownLeft(c.current)
  {
    BottomIff(c.current);
  }

  lemma StepKeepsLadder(c: Controller, s: Sample)
    requires OnLadder(c.current)
    ensures OnLadder(Step(c, s).next.current)
    ensures Emitted(Step(c, s).action) == [] || Emitted(Step(c, s).action) == [Step(c, s).next.current]
  {
    OnLadderClosed(c.current);
  }

  lemma {:induction false} RunKeepsLadder(c: Controller, ss: seq<Sample>)
    requires OnLadder(c.current)
    ensures OnLadder(Exec(c, ss).current)
    ensures forall m :: m in Modes(Trace(c, ss)) ==> OnLadder(m)
  {
    if ss != [] {
      var prefix := ss[..|ss| - 1];
      RunKeepsLadder(c, prefix);
      StepKeepsLadder(Exec(c, prefix), ss[|ss| - 1]);
      var tr := Trace(c, ss);
      assert tr[..|tr| - 1] == Trace(c, prefix);
      assert Modes(tr) == Modes(Trace(c, prefix)) + Emitted(tr[|tr| - 1].action);
    }
  }

  /** Whatever the samples, a run from the default mode stays on the ladder and above one floor. */
  lemma ReachableFromDefault(startAt: nat, ss: seq<Sample>)
    ensures var c0 := Fresh(DEFAULT_MODE, startAt);
      && OnLadder(Exec(c0, ss).current)
      && Floor(Exec(c0, ss).current) == Mode(Encoded, Hevc, 1280, 720, 30, 900, true)
      && forall m :: m in Modes(Trace(c0, ss)) ==> OnLadder(m)
  {
    var c0 := Fresh(DEFAULT_MODE, startAt);
    RunKeepsLadder(c0, ss);
    OnLadderFloor(Exec(c0, ss).current);
  }

  /** If the first mode's bitrate can be tripled in 32 bits, so can every later one. */
  lemma {:induction false} LadderNeverOverflows(c: Controller, ss: seq<Sample>)
    requires MultiplySafe(c.current)
    ensures MultiplySafe(Exec(c, ss).current)
  {
    if ss != [] {
      LadderNeverOverflows(c, ss[..|ss| - 1]);
      MultiplySafeLower(Exec(c, ss[..|ss| - 1]).current);
      MultiplySafeHigher(Exec(c, ss[..|ss| - 1]).current);
    }
  }

  /** The last mode sent to the phone is the mode the controller believes in. */
  lemma {:induction false} LastSentIsCurrent(c: Controller, ss: seq<Sample>)
    ensures Exec(c, ss).current == Last(c.current, Modes(Trace(c, ss)))
  {
    if ss != [] {
      var prefix := ss[..|ss| - 1];
      LastSentIsCurrent(c, prefix);
      var tr := Trace(c, ss);
      assert tr[..|tr| - 1] == Trace(c, prefix);
      StepMovesToEmitted(Exec(c, prefix), ss[|ss| - 1]);
      assert Modes(tr) == Modes(Trace(c, prefix)) + Emitted(tr[|tr| - 1].action);
    }
  }

  lemma StepMovesToEmitted(c: Controller, s: Sample)
    ensures Step(c, s).next.current == Last(c.current, Emitted(Step(c, s).action))
  {
  }

  /** The mode after `n` step-downs, or the floor once the ladder is exhausted. */
  function Rung(m: Mode, n: nat): Mode {
    var rungs := Ladder(m);
    if n == 0 || rungs == [] then m else rungs[Min(n, |rungs|) - 1]
  }

  lemma RungStep(m: Mode, n: nat)
    ensures Rung(m, n + 1) == match NextLower(Rung(m, n)) case Some(r) => r case None => Rung(m, n)
  {
    var rungs := Ladder(m);
    if n < |rungs| {
      assert NextLower(if n == 0 then m else rungs[n - 1]) == Some(rungs[n]);
    } else {
      assert Rung(m, n) == Last(m, rungs);
    }
  }

  /** Unrelenting backlog walks the whole ladder, one rung per sample, and stops at the floor. */
  lemma {:induction false} PersistentCongestion(c: Controller, ss: seq<Sample>)
    requires forall i :: 0 <= i < |ss| ==> ss[i].telemetry.queueDepth > 0
    requires ss != [] ==> ss[0].now >= Reference(c) + STEPDOWN_COOLDOWN_MS
    requires forall i, j :: 0 <= i < j < |ss| ==> ss[j].now >= ss[i].now + STEPDOWN_COOLDOWN_MS
    ensures Exec(c, ss).current == Rung(c.current, |ss|)
    ensures Reference(Exec(c, ss)) <= if ss == [] then Reference(c) else ss[|ss| - 1].now
    ensures |ss| >= DownLeft(c.current) ==> Exec(c, ss).current == Floor(c.current)
  {
    if ss != [] {
      PersistentCongestion(c, ss[..|ss| - 1]);
      RungStep(c.current, |ss| - 1);
    }
  }
}
