/**
 * The control-plane actor of one accepted session: it stamps and sends queued commands, keepalive PINGs
 * and PONG replies, mirrors the phone into a snapshot, and gives up on a silent peer.
 */
module ControlPlane {
  import opened Common
  import opened Tables
  import opened Protocol

  const KEEPALIVE_MS := 2000
  const DEAD_PEER_MS := 6000
  const FIRST_SEQ: u64 := 100

  datatype Link = WifiLink | UsbLink

  datatype StateKind =
    | Idle | Listening | WifiHandshake | UsbHandshake(udid: string)
    | Ready(link: Link) | Reconnecting | Closed(reason: string)

  datatype Device = Device(info: DeviceInfo, cameras: seq<string>)

  datatype Snapshot = Snapshot(state: StateKind, device: Option<Device>, lastTelemetry: Option<Telemetry>)

  datatype UiEvent =
    | StateChanged(state: StateKind)
    | DeviceSeen(device: Device)
    | TelemetrySeen(telemetry: Telemetry)
    | ClosedSeen(reason: string)
    | ModeSeen(mode: Mode)

  /**
   * What one turn of the select loop wakes up for, at a time in milliseconds. `ok` is the fate of the
   * send that turn makes and `usec` the wall clock it stamps.
   */
  datatype Input =
    | Outbound(at: nat, msg: ControlMessage, ok: bool)
    | OutboundClosed(at: nat)
    | Tick(at: nat, usec: u64, ok: bool)
    | Received(at: nat, env: Envelope, usec: u64, ok: bool)
    | RecvFailed(at: nat)

  datatype Plane = Plane(
    link: Link, seqNo: u64, lastRx: nat, snapshot: Snapshot,
    sent: seq<Envelope>, emitted: seq<UiEvent>, running: bool)

  function Bump(n: u64): u64 { if n == U64_MAX then 0 else n + 1 }

  /** The number is used up even when the send fails. */
  function Transmit(p: Plane, ack: Option<u64>, body: ControlMessage, ok: bool): Plane {
    var n := Bump(p.seqNo);
    p.(seqNo := n, sent := p.sent + if ok then [Envelope(n, ack, body)] else [])
  }

  function Broadcast(p: Plane, state: StateKind, device: Option<Device>): Plane {
    p.(snapshot := Snapshot(state, if device.Some? then device else p.snapshot.device, p.snapshot.lastTelemetry),
       emitted := p.emitted + [StateChanged(state)])
  }

  function Emit(p: Plane, e: UiEvent): Plane { p.(emitted := p.emitted + [e]) }

  function Leave(p: Plane): Plane { Broadcast(p, Reconnecting, None).(running := false) }

  function Begin(link: Link, startAt: nat, shared: Snapshot): Plane {
    Broadcast(Plane(link, FIRST_SEQ, startAt, shared, [], [], true), Ready(link), None)
  }

  function Elapsed(since: nat, now: nat): nat { if now < since then 0 else now - since }

  function WithCameras(d: Option<Device>, cameras: seq<string>): Option<Device> {
    match d case None => None case Some(x) => Some(x.(cameras := cameras))
  }

  function Digest(p: Plane, env: Envelope, usec: u64, ok: bool): Plane {
    var body := env.body;
    if body.Ping? then Transmit(p, Some(env.seqNo), Pong(usec, body.tsUsec), ok)
    else if body.DeviceInfoMsg? then
      var d := Device(body.info, []);
      Broadcast(Emit(p, DeviceSeen(d)), Ready(p.link), Some(d))
    else if body.CameraList? then
      var d := WithCameras(p.snapshot.device, body.cameras);
      var q := p.(snapshot := p.snapshot.(device := d));
      if d.Some? then Emit(q, DeviceSeen(d.value)) else q
    else if body.TelemetryMsg? then
      Emit(p.(snapshot := p.snapshot.(lastTelemetry := Some(body.telemetry))), TelemetrySeen(body.telemetry))
    else if body.Bye? then
      Emit(Broadcast(p, Closed(body.reason), None), ClosedSeen(body.reason)).(running := false)
    else if body.ModeApplied? then Emit(p, ModeSeen(body.applied))
    else p
  }

  function Step(p: Plane, i: Input): Plane {
    match i
    case Outbound(_, msg, ok) =>
      var q := Transmit(p, None, msg, ok);
      if ok then q else Leave(q)
    case OutboundClosed(_) => p
    case Tick(at, usec, ok) =>
      var q := Transmit(p, None, Ping(usec), ok);
      if ok && Elapsed(p.lastRx, at) <= DEAD_PEER_MS then q else Leave(q)
    case Received(at, env, usec, ok) => Digest(p.(lastRx := at), env, usec, ok)
    case RecvFailed(_) => Leave(p)
  }

  class Actor {
    const link: Link
    var seqNo: u64
    var lastRx: nat
    var snapshot: Snapshot
    var sent: seq<Envelope>
    var emitted: seq<UiEvent>
    var running: bool

    ghost function State(): Plane
      reads this
    {
      Plane(link, seqNo, lastRx, snapshot, sent, emitted, running)
    }

    constructor (link: Link, startAt: nat, shared: Snapshot)
      ensures State() == Begin(link, startAt, shared)
    {
      this.link := link;
      seqNo, lastRx, running := FIRST_SEQ, startAt, true;
      sent, emitted, snapshot := [], [StateChanged(Ready(link))], shared.(state := Ready(link));
    }

    method SendStamped(ack: Option<u64>, body: ControlMessage, ok: bool)
      modifies this`seqNo, this`sent
      ensures State() == Transmit(old(State()), ack, body, ok)
    {
      seqNo := Bump(seqNo);
      if ok {
        sent := sent + [Envelope(seqNo, ack, body)];
      }
    }

    method Announce(state: StateKind, device: Option<Device>)
      modifies this`snapshot, this`emitted
      ensures State() == Broadcast(old(State()), state, device)
    {
      var snap := snapshot.(state := state);
      if device.Some? {
        snap := snap.(device := device);
      }
      snapshot := snap;
      emitted := emitted + [StateChanged(state)];
    }

    method Disconnect()
      modifies this`snapshot, this`emitted, this`running
      ensures State() == Leave(old(State()))
    {
      Announce(Reconnecting, None);
      running := false;
    }

    method OnMessage(env: Envelope, usec: u64, ok: bool)
      modifies this
      ensures State() == Digest(old(State()), env, usec, ok)
    {
      var body := env.body;
      if body.Ping? {
        SendStamped(Some(env.seqNo), Pong(usec, body.tsUsec), ok);
      } else if body.DeviceInfoMsg? {
        var d := Device(body.info, []);
        emitted := emitted + [DeviceSeen(d)];
        Announce(Ready(link), Some(d));
      } else if body.CameraList? {
        if snapshot.device.Some? {
          var d := snapshot.device.value.(cameras := body.cameras);
          snapshot := snapshot.(device := Some(d));
          emitted := emitted + [DeviceSeen(d)];
        }
      } else if body.TelemetryMsg? {
        snapshot := snapshot.(lastTelemetry := Some(body.telemetry));
        emitted := emitted + [TelemetrySeen(body.telemetry)];
      } else if body.Bye? {
        Announce(Closed(body.reason), None);
        emitted := emitted + [ClosedSeen(body.reason)];
        running := false;
      } else if body.ModeApplied? {
        emitted := emitted + [ModeSeen(body.applied)];
      }
    }

    method Turn(i: Input)
      modifies this
      ensures State() == Step(old(State()), i)
    {
      match i {
        case Outbound(_, msg, ok) =>
          SendStamped(None, msg, ok);
          if !ok {
            Disconnect();
          }
        case OutboundClosed(_) =>
        case Tick(at, usec, ok) =>
          SendStamped(None, Ping(usec), ok);
          if !ok || Elapsed(lastRx, at) > DEAD_PEER_MS {
            Disconnect();
          }
        case Received(at, env, usec, ok) =>
          lastRx := at;
          OnMessage(env, usec, ok);
        case RecvFailed(_) =>
          Disconnect();
      }
    }

    /** Runs until the session is over or nothing more happens. */
    method RunLoop(inputs: seq<Input>) returns (handled: nat)
      requires running
      modifies this
      ensures handled <= |inputs| && Alive(old(State()), inputs[..handled])
      ensures State() == Exec(old(State()), inputs[..handled])
      ensures handled < |inputs| ==> !running
    {
      ghost var p := State();
      handled := 0;
      while running && handled < |inputs|
        invariant handled <= |inputs| && Alive(p, inputs[..handled])
        invariant State() == Exec(p, inputs[..handled])
      {
        AliveSnoc(p, inputs[..handled], inputs[handled]);
        assert inputs[..handled + 1] == inputs[..handled] + [inputs[handled]];
        Turn(inputs[handled]);
        handled := handled + 1;
      }
    }
  }

  // ------------------------------------------------------------------- runs

  function Exec(p: Plane, es: seq<Input>): Plane {
    if es == [] then p else Step(Exec(p, es[..|es| - 1]), es[|es| - 1])
  }

  /** A sequence the loop really goes through: it is still running before each input. */
  predicate Alive(p: Plane, es: seq<Input>) {
    es == [] || (Alive(p, es[..|es| - 1]) && Exec(p, es[..|es| - 1]).running)
  }

  lemma AliveSnoc(p: Plane, es: seq<Input>, e: Input)
    requires Alive(p, es) && Exec(p, es).running
    ensures Alive(p, es + [e]) && Exec(p, es + [e]) == Step(Exec(p, es), e)
  {
    assert (es + [e])[..|es|] == es;
  }

  // ---------------------------------------------------------- sequence numbers

  predicate Stamps(i: Input) {
    i.Outbound? || i.Tick? || (i.Received? && i.env.body.Ping?)
  }

  predicate SendFails(i: Input) { Stamps(i) && !i.ok }

  function StampCount(es: seq<Input>): nat {
    if es == [] then 0 else StampCount(es[..|es| - 1]) + if Stamps(es[|es| - 1]) then 1 else 0
  }

  const TWO64 := U64_MAX + 1

  /** What a turn sends: nothing, or one envelope under the next number. */
  lemma StepSends(p: Plane, i: Input)
    ensures var q := Step(p, i);
      && q.seqNo == (if Stamps(i) then Bump(p.seqNo) else p.seqNo)
      && (if Stamps(i) && i.ok then
            |q.sent| == |p.sent| + 1 && q.sent[..|p.sent|] == p.sent && q.sent[|p.sent|].seqNo == q.seqNo
          else q.sent == p.sent)
  {
  }

  predicate Increasing(es: seq<Envelope>) {
    forall i, j :: 0 <= i < j < |es| ==> es[i].seqNo < es[j].seqNo
  }

  lemma NumberedStep(p: Plane, i: Input)
    requires Increasing(p.sent) && p.seqNo < U64_MAX
    requires forall k :: 0 <= k < |p.sent| ==> FIRST_SEQ < p.sent[k].seqNo <= p.seqNo
    requires FIRST_SEQ <= p.seqNo
    ensures var q := Step(p, i);
      Increasing(q.sent) && forall k :: 0 <= k < |q.sent| ==> FIRST_SEQ < q.sent[k].seqNo <= q.seqNo
  {
    StepSends(p, i);
    var q := Step(p, i);
    assert forall k :: 0 <= k < |p.sent| ==> q.sent[..|p.sent|][k] == q.sent[k];
  }

  /** Before the counter wraps, numbers strictly increase, whatever fails and however turns interleave. */
  lemma {:induction false} NumbersIncrease(link: Link, startAt: nat, shared: Snapshot, es: seq<Input>)
    requires 100 + StampCount(es) <= U64_MAX
    ensures var p := Exec(Begin(link, startAt, shared), es);
      && p.seqNo == 100 + StampCount(es) && Increasing(p.sent)
      && forall k :: 0 <= k < |p.sent| ==> 101 <= p.sent[k].seqNo <= p.seqNo
  {
    if es != [] {
      NumbersIncrease(link, startAt, shared, es[..|es| - 1]);
      var p := Exec(Begin(link, startAt, shared), es[..|es| - 1]);
      StepSends(p, es[|es| - 1]);
      if p.seqNo < U64_MAX {
        NumberedStep(p, es[|es| - 1]);
      }
    }
  }

  predicate AllSent(es: seq<Input>) { forall i :: 0 <= i < |es| ==> !SendFails(es[i]) }

  lemma BumpCounts(n: nat)
    ensures Bump((FIRST_SEQ + n) % TWO64) == (FIRST_SEQ + n + 1) % TWO64
  {
  }

  /** With no failed send the k-th envelope carries 101 + k, modulo 2^64. */
  lemma {:induction false} ExactNumbers(link: Link, startAt: nat, shared: Snapshot, es: seq<Input>)
    requires AllSent(es)
    ensures var p := Exec(Begin(link, startAt, shared), es);
      && |p.sent| == StampCount(es) && p.seqNo == (100 + |p.sent|) % TWO64
      && forall k :: 0 <= k < |p.sent| ==> p.sent[k].seqNo == (101 + k) % TWO64
  {
    if es != [] {
      ExactNumbers(link, startAt, shared, es[..|es| - 1]);
      var p := Exec(Begin(link, startAt, shared), es[..|es| - 1]);
      assert !SendFails(es[|es| - 1]);
      StepSends(p, es[|es| - 1]);
      BumpCounts(|p.sent|);
    }
  }

  lemma WrapsAtLimit()
    ensures (FIRST_SEQ + 1 + (U64_MAX - FIRST_SEQ)) % TWO64 == 0
  {
  }

  lemma NumberedInOrder(replies: seq<Envelope>, sent: seq<Envelope>, i: nat, j: nat)
    requires |replies| == 2 && replies[0].seqNo == 0 && replies[1].seqNo == 1
    requires |sent| <= U64_MAX - FIRST_SEQ && i < j < |replies + sent|
    requires forall k :: 0 <= k < |sent| ==> sent[k].seqNo == (FIRST_SEQ + 1 + k) % TWO64
    ensures (replies + sent)[i].seqNo < (replies + sent)[j].seqNo
  {
    if j >= 2 {
      assert (replies + sent)[j] == sent[j - 2] && sent[j - 2].seqNo == FIRST_SEQ + j - 1;
      if i >= 2 {
        assert (replies + sent)[i] == sent[i - 2] && sent[i - 2].seqNo == FIRST_SEQ + i - 1;
      }
    }
  }

  /**
   * The desktop's half of a whole session, the two handshake replies numbered 0 and 1 first, is strictly
   * increasing exactly when the actor sends fewer than 2^64 - 100 envelopes.
   */
  lemma SessionIncreasesIff(link: Link, startAt: nat, shared: Snapshot, es: seq<Input>, replies: seq<Envelope>)
    requires AllSent(es)
    requires |replies| == 2 && replies[0].seqNo == 0 && replies[1].seqNo == 1
    ensures var sent := Exec(Begin(link, startAt, shared), es).sent;
      Increasing(replies + sent) <==> |sent| <= U64_MAX - 100
  {
    ExactNumbers(link, startAt, shared, es);
    var sent := Exec(Begin(link, startAt, shared), es).sent;
    var all, limit := replies + sent, U64_MAX - FIRST_SEQ;
    if |sent| > limit {
      WrapsAtLimit();
      assert all[2 + limit] == sent[limit] && all[1] == replies[1];
    } else {
      forall i, j | 0 <= i < j < |all|
        ensures all[i].seqNo < all[j].seqNo
      {
        NumberedInOrder(replies, sent, i, j);
      }
    }
  }

  // ------------------------------------------------------- commands and replies

  /** An envelope that is neither a reply nor a keepalive. */
  function CommandsOut(sent: seq<Envelope>): seq<ControlMessage> {
    if sent == [] then []
    else
      CommandsOut(sent[..|sent| - 1])
      + var e := sent[|sent| - 1]; if e.ack.None? && !e.body.Ping? then [e.body] else []
  }

  function Queued(es: seq<Input>): seq<ControlMessage> {
    if es == [] then []
    else
      Queued(es[..|es| - 1])
      + var i := es[|es| - 1]; if i.Outbound? && i.ok && !i.msg.Ping? then [i.msg] else []
  }

  /** What a reply answers: the number it acknowledges and the time it echoes. */
  datatype Answered = Answered(ack: u64, echo: u64)

  function RepliesOut(sent: seq<Envelope>): seq<Answered> {
    if sent == [] then []
    else
      RepliesOut(sent[..|sent| - 1])
      + var e := sent[|sent| - 1]; if e.ack.Some? && e.body.Pong? then [Answered(e.ack.value, e.body.echoUsec)] else []
  }

  function Pinged(es: seq<Input>): seq<Answered> {
    if es == [] then []
    else
      Pinged(es[..|es| - 1])
      + var i := es[|es| - 1];
        if i.Received? && i.env.body.Ping? && i.ok then [Answered(i.env.seqNo, i.env.body.tsUsec)] else []
  }

  /** An envelope without its number. */
  datatype Spoken = Spoken(ack: Option<u64>, body: ControlMessage)

  function Transcript(sent: seq<Envelope>): seq<Spoken> {
    if sent == [] then []
    else Transcript(sent[..|sent| - 1]) + [Spoken(sent[|sent| - 1].ack, sent[|sent| - 1].body)]
  }

  /** What an input makes the actor say, if the send succeeds. */
  function Said(i: Input): seq<Spoken> {
    if i.Outbound? && i.ok then [Spoken(None, i.msg)]
    else if i.Tick? && i.ok then [Spoken(None, Ping(i.usec))]
    else if i.Received? && i.env.body.Ping? && i.ok then
      [Spoken(Some(i.env.seqNo), Pong(i.usec, i.env.body.tsUsec))]
    else []
  }

  function SaidAll(es: seq<Input>): seq<Spoken> {
    if es == [] then [] else SaidAll(es[..|es| - 1]) + Said(es[|es| - 1])
  }

  lemma StepSpeaks(p: Plane, i: Input)
    ensures Transcript(Step(p, i).sent) == Transcript(p.sent) + Said(i)
  {
    var q := Step(p, i);
    StepSends(p, i);
    assert Transcript(p.sent) + [] == Transcript(p.sent);
    if Said(i) != [] {
      var e := q.sent[|p.sent|];
      assert q.sent == p.sent + [e] && (p.sent + [e])[..|p.sent|] == p.sent;
    }
  }

  /**
   * The whole wire, in order: every command as queued, a PING with the clock of every tick, and for every
   * received PING a PONG that acknowledges its number and echoes its time. Nothing else is ever sent.
   */
  lemma {:induction false} WireIsTranscript(link: Link, startAt: nat, shared: Snapshot, es: seq<Input>)
    ensures Transcript(Exec(Begin(link, startAt, shared), es).sent) == SaidAll(es)
  {
    if es != [] {
      WireIsTranscript(link, startAt, shared, es[..|es| - 1]);
      StepSpeaks(Exec(Begin(link, startAt, shared), es[..|es| - 1]), es[|es| - 1]);
    }
  }

  lemma SentSnoc(sent: seq<Envelope>, e: Envelope)
    ensures CommandsOut(sent + [e]) == CommandsOut(sent) + (if e.ack.None? && !e.body.Ping? then [e.body] else [])
    ensures RepliesOut(sent + [e])
      == RepliesOut(sent) + (if e.ack.Some? && e.body.Pong? then [Answered(e.ack.value, e.body.echoUsec)] else [])
  {
    assert (sent + [e])[..|sent|] == sent;
  }

  lemma StepKeepsOrder(p: Plane, i: Input)
    ensures CommandsOut(Step(p, i).sent)
      == CommandsOut(p.sent) + (if i.Outbound? && i.ok && !i.msg.Ping? then [i.msg] else [])
    ensures RepliesOut(Step(p, i).sent)
      == RepliesOut(p.sent)
         + (if i.Received? && i.env.body.Ping? && i.ok then [Answered(i.env.seqNo, i.env.body.tsUsec)] else [])
  {
    StepSends(p, i);
    var q := Step(p, i);
    if q.sent != p.sent {
      SentSnoc(p.sent, q.sent[|p.sent|]);
      assert q.sent == p.sent + [q.sent[|p.sent|]];
    }
  }

  /**
   * However turns interleave, commands leave in the order they were queued, none lost or doubled, and
   * the replies answer the received PINGs one for one, in order.
   */
  lemma {:induction false} OrderIsKept(link: Link, startAt: nat, shared: Snapshot, es: seq<Input>)
    ensures var p := Exec(Begin(link, startAt, shared), es);
      CommandsOut(p.sent) == Queued(es) && RepliesOut(p.sent) == Pinged(es)
  {
    if es != [] {
      OrderIsKept(link, startAt, shared, es[..|es| - 1]);
      StepKeepsOrder(Exec(Begin(link, startAt, shared), es[..|es| - 1]), es[|es| - 1]);
    }
  }

  // ------------------------------------------------------- the mirrored phone

  /** The latest input of a kind. */
  function LastOf(es: seq<Input>, kind: Input -> bool): (r: Option<nat>)
    ensures r.Some? ==> r.value < |es| && kind(es[r.value]) && forall j :: r.value < j < |es| ==> !kind(es[j])
    ensures r.None? ==> forall j :: 0 <= j < |es| ==> !kind(es[j])
  {
    if es == [] then None
    else if kind(es[|es| - 1]) then Some(|es| - 1)
    else LastOf(es[..|es| - 1], kind)
  }

  predicate IsInfo(i: Input) { i.Received? && i.env.body.DeviceInfoMsg? }

  predicate IsCameras(i: Input) { i.Received? && i.env.body.CameraList? }

  predicate IsTelemetry(i: Input) { i.Received? && i.env.body.TelemetryMsg? }

  predicate IsReceipt(i: Input) { i.Received? }

  /** The last DEVICE_INFO, with the cameras of the last CAMERA_LIST since. */
  function MirroredDevice(shared: Option<Device>, es: seq<Input>): Option<Device> {
    var info, cams := LastOf(es, IsInfo), LastOf(es, IsCameras);
    if info.Some? then
      Some(Device(es[info.value].env.body.info,
                  if cams.Some? && cams.value > info.value then es[cams.value].env.body.cameras else []))
    else if cams.Some? then WithCameras(shared, es[cams.value].env.body.cameras)
    else shared
  }

  function MirroredTelemetry(shared: Option<Telemetry>, es: seq<Input>): Option<Telemetry> {
    match LastOf(es, IsTelemetry)
    case Some(i) => Some(es[i].env.body.telemetry)
    case None => shared
  }

  function LastHeard(startAt: nat, es: seq<Input>): nat {
    match LastOf(es, IsReceipt) case Some(i) => es[i].at case None => startAt
  }

  lemma StepMirrors(p: Plane, i: Input)
    ensures var q := Step(p, i);
      && q.lastRx == (if IsReceipt(i) then i.at else p.lastRx)
      && q.snapshot.device ==
          (if IsInfo(i) then Some(Device(i.env.body.info, []))
           else if IsCameras(i) then WithCameras(p.snapshot.device, i.env.body.cameras)
           else p.snapshot.device)
      && q.snapshot.lastTelemetry ==
          (if IsTelemetry(i) then Some(i.env.body.telemetry) else p.snapshot.lastTelemetry)
  {
  }

  lemma DeviceSnoc(shared: Option<Device>, es: seq<Input>, i: Input)
    ensures MirroredDevice(shared, es + [i]) ==
      (if IsInfo(i) then Some(Device(i.env.body.info, []))
       else if IsCameras(i) then WithCameras(MirroredDevice(shared, es), i.env.body.cameras)
       else MirroredDevice(shared, es))
  {
    assert (es + [i])[..|es|] == es;
  }

  lemma TelemetrySnoc(shared: Option<Telemetry>, startAt: nat, es: seq<Input>, i: Input)
    ensures MirroredTelemetry(shared, es + [i]) ==
      (if IsTelemetry(i) then Some(i.env.body.telemetry) else MirroredTelemetry(shared, es))
    ensures LastHeard(startAt, es + [i]) == (if IsReceipt(i) then i.at else LastHeard(startAt, es))
  {
    assert (es + [i])[..|es|] == es;
  }

  /** After every run the snapshot shows what the phone reported last. */
  lemma {:induction false} SnapshotMirrors(link: Link, startAt: nat, shared: Snapshot, es: seq<Input>)
    ensures var p := Exec(Begin(link, startAt, shared), es);
      && p.snapshot.device == MirroredDevice(shared.device, es)
      && p.snapshot.lastTelemetry == MirroredTelemetry(shared.lastTelemetry, es)
      && p.lastRx == LastHeard(startAt, es)
  {
    if es != [] {
      var prefix, i := es[..|es| - 1], es[|es| - 1];
      SnapshotMirrors(link, startAt, shared, prefix);
      StepMirrors(Exec(Begin(link, startAt, shared), prefix), i);
      assert prefix + [i] == es;
      DeviceSnoc(shared.device, prefix, i);
      TelemetrySnoc(shared.lastTelemetry, startAt, prefix, i);
    }
  }

  // ------------------------------------------------------------ the final state

  /** The inputs that end a session which last heard its peer at `heard`. */
  predicate Ends(heard: nat, i: Input) {
    || i.RecvFailed?
    || (i.Outbound? && !i.ok)
    || (i.Tick? && (!i.ok || i.at > heard + DEAD_PEER_MS))
    || (i.Received? && i.env.body.Bye?)
  }

  function FinalState(i: Input): StateKind {
    if i.Received? && i.env.body.Bye? then Closed(i.env.body.reason) else Reconnecting
  }

  /** The farewell a session ends with. */
  function Farewell(i: Input): seq<UiEvent> {
    if i.Received? && i.env.body.Bye? then [StateChanged(Closed(i.env.body.reason)), ClosedSeen(i.env.body.reason)]
    else [StateChanged(Reconnecting)]
  }

  predicate Terminal(e: UiEvent) {
    e.ClosedSeen? || (e.StateChanged? && (e.state.Reconnecting? || e.state.Closed?))
  }

  /** The terminal states and closing events announced to the user interface. */
  function Finals(es: seq<UiEvent>): seq<UiEvent> {
    if es == [] then []
    else Finals(es[..|es| - 1]) + if Terminal(es[|es| - 1]) then [es[|es| - 1]] else []
  }

  lemma FinalsSnoc(es: seq<UiEvent>, e: UiEvent)
    ensures Finals(es + [e]) == Finals(es) + if Terminal(e) then [e] else []
  {
    assert (es + [e])[..|es|] == es;
  }

  lemma BroadcastFinals(p: Plane, state: StateKind, d: Option<Device>)
    ensures Finals(Broadcast(p, state, d).emitted)
      == Finals(p.emitted) + if Terminal(StateChanged(state)) then [StateChanged(state)] else []
  {
    FinalsSnoc(p.emitted, StateChanged(state));
  }

  lemma EmitFinals(p: Plane, e: UiEvent)
    requires !e.StateChanged?
    ensures Finals(Emit(p, e).emitted) == Finals(p.emitted) + if Terminal(e) then [e] else []
  {
    FinalsSnoc(p.emitted, e);
  }

  lemma ByeFinals(p: Plane, reason: string)
    ensures Finals(Emit(Broadcast(p, Closed(reason), None), ClosedSeen(reason)).emitted)
      == Finals(p.emitted) + [StateChanged(Closed(reason)), ClosedSeen(reason)]
  {
    BroadcastFinals(p, Closed(reason), None);
    EmitFinals(Broadcast(p, Closed(reason), None), ClosedSeen(reason));
  }

  lemma InfoFinals(p: Plane, d: Device)
    ensures Finals(Broadcast(Emit(p, DeviceSeen(d)), Ready(p.link), Some(d)).emitted) == Finals(p.emitted)
  {
    EmitFinals(p, DeviceSeen(d));
    BroadcastFinals(Emit(p, DeviceSeen(d)), Ready(p.link), Some(d));
  }

  lemma DigestFinals(p: Plane, env: Envelope, usec: u64, ok: bool)
    ensures Finals(Digest(p, env, usec, ok).emitted)
      == Finals(p.emitted)
         + if env.body.Bye? then [StateChanged(Closed(env.body.reason)), ClosedSeen(env.body.reason)] else []
  {
    var body := env.body;
    assert Finals(p.emitted) + [] == Finals(p.emitted);
    if body.DeviceInfoMsg? {
      InfoFinals(p, Device(body.info, []));
    } else if body.Bye? {
      ByeFinals(p, body.reason);
    } else if body.CameraList? && p.snapshot.device.Some? {
      EmitFinals(p, DeviceSeen(p.snapshot.device.value.(cameras := body.cameras)));
    } else if body.TelemetryMsg? {
      EmitFinals(p, TelemetrySeen(body.telemetry));
    } else if body.ModeApplied? {
      EmitFinals(p, ModeSeen(body.applied));
    }
  }

  lemma StepState(p: Plane, i: Input)
    requires p.running && p.snapshot.state == Ready(p.link)
    ensures var q := Step(p, i);
      && q.link == p.link && (q.running <==> !Ends(p.lastRx, i))
      && q.snapshot.state == (if q.running then Ready(p.link) else FinalState(i))
  {
  }

  lemma StepFinals(p: Plane, i: Input)
    requires p.running && p.snapshot.state == Ready(p.link)
    ensures Finals(Step(p, i).emitted) == Finals(p.emitted) + if Ends(p.lastRx, i) then Farewell(i) else []
  {
    assert Finals(p.emitted) + [] == Finals(p.emitted);
    if i.Received? {
      DigestFinals(p.(lastRx := i.at), i.env, i.usec, i.ok);
    } else if i.Outbound? {
      SendFinals(p, i.msg, i.ok);
    } else if i.Tick? {
      SendFinals(p, Ping(i.usec), i.ok);
    } else if i.RecvFailed? {
      LeaveFinals(p);
    }
  }

  lemma SendFinals(p: Plane, body: ControlMessage, ok: bool)
    ensures Finals(Transmit(p, None, body, ok).emitted) == Finals(p.emitted)
    ensures Finals(Leave(Transmit(p, None, body, ok)).emitted) == Finals(p.emitted) + [StateChanged(Reconnecting)]
  {
    LeaveFinals(Transmit(p, None, body, ok));
  }

  lemma LeaveFinals(p: Plane)
    ensures Finals(Leave(p).emitted) == Finals(p.emitted) + [StateChanged(Reconnecting)]
  {
    BroadcastFinals(p, Reconnecting, None);
  }

  /**
   * A session is over exactly when its last input ended it. It announces its one terminal state then,
   * RECONNECTING, or for a BYE CLOSED and a closing event with the reason; before, it shows READY and
   * announces neither.
   */
  lemma {:induction false} OneFinalState(link: Link, startAt: nat, shared: Snapshot, es: seq<Input>)
    requires Alive(Begin(link, startAt, shared), es)
    ensures var p := Exec(Begin(link, startAt, shared), es);
      && p.link == link
      && (p.running <==> es == [] || !Ends(LastHeard(startAt, es[..|es| - 1]), es[|es| - 1]))
      && p.snapshot.state == (if p.running then Ready(link) else FinalState(es[|es| - 1]))
      && Finals(p.emitted) == (if p.running then [] else Farewell(es[|es| - 1]))
  {
    if es != [] {
      var prefix := es[..|es| - 1];
      OneFinalState(link, startAt, shared, prefix);
      SnapshotMirrors(link, startAt, shared, prefix);
      StepState(Exec(Begin(link, startAt, shared), prefix), es[|es| - 1]);
      StepFinals(Exec(Begin(link, startAt, shared), prefix), es[|es| - 1]);
    }
  }

  // ------------------------------------------------------ what a listener sees

  /** One event, applied to what a listener knows. */
  function Learn(s: Snapshot, e: UiEvent): Snapshot {
    match e
    case StateChanged(state) => s.(state := state)
    case DeviceSeen(d) => s.(device := Some(d))
    case TelemetrySeen(t) => s.(lastTelemetry := Some(t))
    case ClosedSeen(_) => s
    case ModeSeen(_) => s
  }

  function Learned(shared: Snapshot, es: seq<UiEvent>): Snapshot {
    if es == [] then shared else Learn(Learned(shared, es[..|es| - 1]), es[|es| - 1])
  }

  function ModesSeen(es: seq<UiEvent>): seq<Mode> {
    if es == [] then []
    else ModesSeen(es[..|es| - 1]) + if es[|es| - 1].ModeSeen? then [es[|es| - 1].mode] else []
  }

  function ModeOf(i: Input): seq<Mode> {
    if i.Received? && i.env.body.ModeApplied? then [i.env.body.applied] else []
  }

  function ModesConfirmed(es: seq<Input>): seq<Mode> {
    if es == [] then [] else ModesConfirmed(es[..|es| - 1]) + ModeOf(es[|es| - 1])
  }

  /** What a listener to `p`'s events knows, and which modes it saw confirmed. */
  predicate Informed(p: Plane, shared: Snapshot, modes: seq<Mode>) {
    p.snapshot == Learned(shared, p.emitted) && ModesSeen(p.emitted) == modes
  }

  lemma EventSnoc(shared: Snapshot, es: seq<UiEvent>, e: UiEvent)
    ensures Learned(shared, es + [e]) == Learn(Learned(shared, es), e)
    ensures ModesSeen(es + [e]) == ModesSeen(es) + if e.ModeSeen? then [e.mode] else []
  {
    assert (es + [e])[..|es|] == es;
  }

  lemma EventInforms(p: Plane, q: Plane, e: UiEvent, shared: Snapshot, modes: seq<Mode>)
    requires Informed(p, shared, modes)
    requires q.emitted == p.emitted + [e] && q.snapshot == Learn(p.snapshot, e)
    ensures Informed(q, shared, modes + if e.ModeSeen? then [e.mode] else [])
  {
    EventSnoc(shared, p.emitted, e);
  }

  lemma InfoInforms(p: Plane, info: DeviceInfo, shared: Snapshot, modes: seq<Mode>)
    requires Informed(p, shared, modes)
    ensures var d := Device(info, []);
      Informed(Broadcast(Emit(p, DeviceSeen(d)), Ready(p.link), Some(d)), shared, modes)
  {
    var d := Device(info, []);
    var q := Emit(p, DeviceSeen(d)).(snapshot := p.snapshot.(device := Some(d)));
    EventInforms(p, q, DeviceSeen(d), shared, modes);
    assert modes + [] == modes;
    var r := Broadcast(Emit(p, DeviceSeen(d)), Ready(p.link), Some(d));
    EventInforms(q, r, StateChanged(Ready(p.link)), shared, modes);
  }

  lemma ByeInforms(p: Plane, reason: string, shared: Snapshot, modes: seq<Mode>)
    requires Informed(p, shared, modes)
    ensures Informed(Emit(Broadcast(p, Closed(reason), None), ClosedSeen(reason)), shared, modes)
  {
    var q := Broadcast(p, Closed(reason), None);
    EventInforms(p, q, StateChanged(Closed(reason)), shared, modes);
    assert modes + [] == modes;
    EventInforms(q, Emit(q, ClosedSeen(reason)), ClosedSeen(reason), shared, modes);
  }

  lemma DigestInforms(p: Plane, env: Envelope, usec: u64, ok: bool, shared: Snapshot, modes: seq<Mode>)
    requires Informed(p, shared, modes)
    ensures Informed(Digest(p, env, usec, ok), shared,
                     modes + if env.body.ModeApplied? then [env.body.applied] else [])
  {
    var body, q := env.body, Digest(p, env, usec, ok);
    assert modes + [] == modes;
    if body.DeviceInfoMsg? {
      InfoInforms(p, body.info, shared, modes);
    } else if body.Bye? {
      ByeInforms(p, body.reason, shared, modes);
    } else if body.CameraList? && p.snapshot.device.Some? {
      EventInforms(p, q, DeviceSeen(p.snapshot.device.value.(cameras := body.cameras)), shared, modes);
    } else if body.TelemetryMsg? {
      EventInforms(p, q, TelemetrySeen(body.telemetry), shared, modes);
    } else if body.ModeApplied? {
      EventInforms(p, q, ModeSeen(body.applied), shared, modes);
    }
  }

  lemma LeaveInforms(p: Plane, shared: Snapshot, modes: seq<Mode>)
    requires Informed(p, shared, modes)
    ensures Informed(Leave(p), shared, modes)
  {
    EventInforms(p, Leave(p), StateChanged(Reconnecting), shared, modes);
    assert modes + [] == modes;
  }

  lemma StepInforms(p: Plane, i: Input, shared: Snapshot, modes: seq<Mode>)
    requires Informed(p, shared, modes)
    ensures Informed(Step(p, i), shared, modes + ModeOf(i))
  {
    if i.Received? {
      DigestInforms(p.(lastRx := i.at), i.env, i.usec, i.ok, shared, modes);
    } else {
      assert modes + ModeOf(i) == modes;
      LeaveInforms(p, shared, modes);
      if i.Outbound? {
        LeaveInforms(Transmit(p, None, i.msg, i.ok), shared, modes);
      } else if i.Tick? {
        LeaveInforms(Transmit(p, None, Ping(i.usec), i.ok), shared, modes);
      }
    }
  }

  /**
   * The event stream carries everything: after every run, a listener that only folds the events knows
   * the snapshot, and it has seen each confirmed mode once, in order.
   */
  lemma {:induction false} EventsTellAll(link: Link, startAt: nat, shared: Snapshot, es: seq<Input>)
    ensures var p := Exec(Begin(link, startAt, shared), es);
      p.snapshot == Learned(shared, p.emitted) && ModesSeen(p.emitted) == ModesConfirmed(es)
  {
    if es == [] {
      EventSnoc(shared, [], StateChanged(Ready(link)));
    } else {
      var prefix := es[..|es| - 1];
      EventsTellAll(link, startAt, shared, prefix);
      StepInforms(Exec(Begin(link, startAt, shared), prefix), es[|es| - 1], shared, ModesConfirmed(prefix));
    }
  }
}
