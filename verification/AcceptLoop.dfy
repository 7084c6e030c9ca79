/** The Wi-Fi accept loop: media sockets are matched to control sessions through a pending table. */
module AcceptLoop {
  import opened Common
  import opened Protocol
  import opened Wire
  import opened MediaSocket
  import opened Handshake

  const LOOP_CAPS: seq<Capability> := [CapHevc, CapH264, CapRawNv12]

  /** A media pipeline started for a session, on what its socket holds after the hello. */
  datatype Delivery = Delivery(session: nat, binding: MediaBinding, records: Bytes)

  /**
   * Sessions are numbered in the order they were accepted; `live` are those whose control plane still
   * runs, and `outbound` is the shared slot commands are sent through.
   */
  datatype Loop = Loop(
    pending: map<MediaBinding, nat>, accepted: seq<MediaBinding>, delivered: seq<Delivery>,
    live: set<nat>, outbound: Option<nat>)

  const EMPTY := Loop(map[], [], [], {}, None)

  datatype Event =
    /** A control connection, with all its peer will do and the id generated for it. */
    | ControlArrives(inbox: seq<Receive>, sends: nat, sid: string)
    | MediaArrives(bytes: Bytes)
    | SessionEnds(session: nat)

  /** What the loop is started with. */
  datatype Setup = Setup(token: string, json: Json)

  function Verify(cfg: Setup, e: Event): Option<MediaBinding>
    requires e.ControlArrives?
  {
    match ServerRun(Wifi, cfg.token, LOOP_CAPS, e.sid, e.inbox, e.sends).result
    case Err(_) => None
    case Ok(a) => Some(MediaBinding(a.sessionId, a.token))
  }

  function Register(l: Loop, key: MediaBinding): Loop {
    var n := |l.accepted|;
    l.(pending := l.pending[key := n], accepted := l.accepted + [key], live := l.live + {n}, outbound := Some(n))
  }

  function Pair(l: Loop, hello: Result<Got<MediaBinding>, HelloError>): Loop {
    if hello.Err? || hello.value.value !in l.pending then l
    else
      var key := hello.value.value;
      l.(pending := l.pending - {key},
         delivered := l.delivered + [Delivery(l.pending[key], key, hello.value.rest)])
  }

  function Step(cfg: Setup, l: Loop, e: Event): Loop {
    match e
    case ControlArrives(_, _, _) =>
      (match Verify(cfg, e) case None => l case Some(key) => Register(l, key))
    case MediaArrives(bytes) => Pair(l, ReadHello(cfg.json, bytes))
    case SessionEnds(k) => l.(live := l.live - {k}, outbound := None)
  }

  class WifiLoop {
    const cfg: Setup
    var pending: map<MediaBinding, nat>
    var accepted: seq<MediaBinding>
    var delivered: seq<Delivery>
    var live: set<nat>
    var outbound: Option<nat>

    ghost function State(): Loop
      reads this
    {
      Loop(pending, accepted, delivered, live, outbound)
    }

    constructor (cfg: Setup)
      ensures this.cfg == cfg && State() == EMPTY
    {
      this.cfg := cfg;
      pending, accepted, delivered, live, outbound := map[], [], [], {}, None;
    }

    method OnControl(stream: ControlStream, sid: string)
      modifies this, stream
      ensures State() == Step(cfg, old(State()), ControlArrives(old(stream.inbox), old(stream.sendsLeft), sid))
    {
      var r := AcceptControl(stream, Wifi, cfg.token, LOOP_CAPS, sid);
      if r.Ok? {
        var key, n := MediaBinding(r.value.sessionId, r.value.token), |accepted|;
        pending := pending[key := n];
        accepted := accepted + [key];
        outbound := Some(n);
        live := live + {n};
      }
    }

    method OnMedia(stream: MediaStream)
      modifies this, stream
      ensures State() == Step(cfg, old(State()), MediaArrives(old(stream.reader)))
    {
      var hello := ReadMediaHello(stream, cfg.json);
      if hello.Ok? && hello.value in pending {
        delivered := delivered + [Delivery(pending[hello.value], hello.value, stream.reader)];
        pending := pending - {hello.value};
      }
    }

    method OnSessionEnd(k: nat)
      modifies this
      ensures State() == Step(cfg, old(State()), SessionEnds(k))
    {
      live := live - {k};
      outbound := None;
    }
  }

  // ------------------------------------------------------------------- runs

  function Exec(cfg: Setup, es: seq<Event>): Loop {
    if es == [] then EMPTY else Step(cfg, Exec(cfg, es[..|es| - 1]), es[|es| - 1])
  }

  ghost function DeliveredKeys(ds: seq<Delivery>): set<MediaBinding> { set d | d in ds :: d.binding }

  ghost function AcceptedKeys(l: Loop): set<MediaBinding> { set k | k in l.accepted }

  /** Every session the table or a pipeline knows is an accepted one, and no session occurs twice. */
  ghost predicate Sound(token: string, l: Loop) {
    && (forall k :: k in l.pending ==> l.pending[k] < |l.accepted| && l.accepted[l.pending[k]] == k)
    && (forall d :: d in l.delivered ==>
          && d.session < |l.accepted| && l.accepted[d.session] == d.binding
          && !(d.binding in l.pending && l.pending[d.binding] == d.session))
    && (forall i, j :: 0 <= i < j < |l.delivered| ==> l.delivered[i].session != l.delivered[j].session)
    && (forall k :: k in l.accepted ==> k.token == token)
  }

  ghost predicate Partitioned(l: Loop) {
    l.pending.Keys + DeliveredKeys(l.delivered) == AcceptedKeys(l)
  }

  lemma RegisterSound(token: string, l: Loop, key: MediaBinding)
    requires Sound(token, l) && key.token == token
    ensures Sound(token, Register(l, key))
  {
  }

  lemma PairSound(token: string, l: Loop, hello: Result<Got<MediaBinding>, HelloError>)
    requires Sound(token, l)
    ensures Sound(token, Pair(l, hello))
  {
  }

  lemma VerifiedToken(cfg: Setup, e: Event)
    requires e.ControlArrives? && Verify(cfg, e).Some?
    ensures Verify(cfg, e).value == MediaBinding(e.sid, cfg.token)
  {
    AcceptIff(Wifi, cfg.token, LOOP_CAPS, e.sid, e.inbox, e.sends);
  }

  /**
   * Over every sequence of arrivals: each delivered stream presented a pair that was accepted, and went
   * to the session accepted under that pair; no session gets a second stream, and none that has one is
   * still waiting.
   */
  lemma {:induction false} RunIsSound(cfg: Setup, es: seq<Event>)
    ensures Sound(cfg.token, Exec(cfg, es))
  {
    if es != [] {
      var before, e := es[..|es| - 1], es[|es| - 1];
      RunIsSound(cfg, before);
      var l := Exec(cfg, before);
      if e.ControlArrives? && Verify(cfg, e).Some? {
        VerifiedToken(cfg, e);
        RegisterSound(cfg.token, l, Verify(cfg, e).value);
      } else if e.MediaArrives? {
        PairSound(cfg.token, l, ReadHello(cfg.json, e.bytes));
      }
    }
  }

  lemma DeliveredKeysSnoc(ds: seq<Delivery>, d: Delivery)
    ensures DeliveredKeys(ds + [d]) == DeliveredKeys(ds) + {d.binding}
  {
    assert forall x :: x in ds + [d] <==> x in ds || x == d;
  }

  lemma StepPartitions(cfg: Setup, l: Loop, e: Event)
    requires Partitioned(l)
    ensures Partitioned(Step(cfg, l, e))
  {
    var l' := Step(cfg, l, e);
    if e.ControlArrives? && Verify(cfg, e).Some? {
      var key := Verify(cfg, e).value;
      assert forall x :: x in l'.accepted <==> x in l.accepted || x == key;
      assert AcceptedKeys(l') == AcceptedKeys(l) + {key};
      assert l'.pending.Keys == l.pending.Keys + {key};
    } else if e.MediaArrives? && l' != l {
      var key := ReadHello(cfg.json, e.bytes).value.value;
      DeliveredKeysSnoc(l.delivered, l'.delivered[|l.delivered|]);
      assert l'.pending.Keys == l.pending.Keys - {key};
    }
  }

  /** Nothing accepted is ever forgotten: the waiting and the delivered pairs are the accepted ones. */
  lemma {:induction false} RunPartitions(cfg: Setup, es: seq<Event>)
    ensures Partitioned(Exec(cfg, es))
  {
    if es != [] {
      RunPartitions(cfg, es[..|es| - 1]);
      StepPartitions(cfg, Exec(cfg, es[..|es| - 1]), es[|es| - 1]);
    }
  }

  ghost predicate Distinct(keys: seq<MediaBinding>) {
    forall i, j :: 0 <= i < j < |keys| ==> keys[i] != keys[j]
  }

  /** Generated session ids never repeat. */
  ghost predicate FreshIds(es: seq<Event>) {
    forall i, j :: 0 <= i < j < |es| && es[i].ControlArrives? && es[j].ControlArrives? ==> es[i].sid != es[j].sid
  }

  lemma {:induction false} AcceptedIdsOccur(cfg: Setup, es: seq<Event>, k: MediaBinding)
    requires k in Exec(cfg, es).accepted
    ensures exists i :: 0 <= i < |es| && es[i].ControlArrives? && es[i].sid == k.sessionId
  {
    var before, e := es[..|es| - 1], es[|es| - 1];
    if k in Exec(cfg, before).accepted {
      AcceptedIdsOccur(cfg, before, k);
      var i :| 0 <= i < |before| && before[i].ControlArrives? && before[i].sid == k.sessionId;
      assert es[i] == before[i];
    } else {
      VerifiedToken(cfg, e);
      assert es[|es| - 1].sid == k.sessionId;
    }
  }

  lemma {:induction false} FreshMeansDistinct(cfg: Setup, es: seq<Event>)
    requires FreshIds(es)
    ensures Distinct(Exec(cfg, es).accepted)
  {
    if es != [] {
      var before, e := es[..|es| - 1], es[|es| - 1];
      FreshMeansDistinct(cfg, before);
      if e.ControlArrives? && Verify(cfg, e).Some? {
        VerifiedToken(cfg, e);
        var key := Verify(cfg, e).value;
        if key in Exec(cfg, before).accepted {
          AcceptedIdsOccur(cfg, before, key);
        }
      }
    }
  }

  /** With fresh ids a pair is waiting or delivered, never both, and is delivered at most once. */
  lemma WaitingOrDelivered(cfg: Setup, es: seq<Event>)
    requires FreshIds(es)
    ensures var l := Exec(cfg, es);
      && l.pending.Keys !! DeliveredKeys(l.delivered)
      && l.pending.Keys + DeliveredKeys(l.delivered) == AcceptedKeys(l)
      && forall i, j :: 0 <= i < j < |l.delivered| ==> l.delivered[i].binding != l.delivered[j].binding
  {
    RunIsSound(cfg, es);
    RunPartitions(cfg, es);
    FreshMeansDistinct(cfg, es);
    var l := Exec(cfg, es);
    forall d | d in l.delivered
      ensures d.binding !in l.pending
    {
    }
    forall i, j | 0 <= i < j < |l.delivered|
      ensures l.delivered[i].binding != l.delivered[j].binding
    {
      assert l.delivered[i] in l.delivered && l.delivered[j] in l.delivered;
    }
  }

  /**
   * After any run with fresh ids, a media socket is paired exactly when it presents an accepted pair no
   * earlier socket presented; otherwise its arrival changes nothing.
   */
  lemma PairedIff(cfg: Setup, es: seq<Event>, bytes: Bytes)
    requires FreshIds(es)
    ensures var l, hello := Exec(cfg, es), ReadHello(cfg.json, bytes);
      var l' := Step(cfg, l, MediaArrives(bytes));
      if hello.Ok? && hello.value.value in l.accepted && hello.value.value !in DeliveredKeys(l.delivered) then
        && |l'.delivered| == |l.delivered| + 1 && l'.delivered[..|l.delivered|] == l.delivered
        && var d := l'.delivered[|l.delivered|];
          && d.binding == hello.value.value && d.records == hello.value.rest
          && d.session < |l.accepted| && l.accepted[d.session] == d.binding
      else l' == l
  {
    WaitingOrDelivered(cfg, es);
    RunIsSound(cfg, es);
    var l := Exec(cfg, es);
    assert forall k :: k in AcceptedKeys(l) <==> k in l.pending || k in DeliveredKeys(l.delivered);
  }

  lemma {:induction false} ExecConcat(cfg: Setup, a: seq<Event>, b: seq<Event>)
    ensures Exec(cfg, a + b) == ExecFrom(cfg, Exec(cfg, a), b)
  {
    if b == [] {
      assert a + b == a;
    } else {
      ExecConcat(cfg, a, b[..|b| - 1]);
      assert (a + b)[..|a + b| - 1] == a + b[..|b| - 1] && (a + b)[|a + b| - 1] == b[|b| - 1];
    }
  }

  function ExecFrom(cfg: Setup, l: Loop, es: seq<Event>): Loop {
    if es == [] then l else Step(cfg, ExecFrom(cfg, l, es[..|es| - 1]), es[|es| - 1])
  }

  predicate Presents(cfg: Setup, e: Event, key: MediaBinding) {
    e.MediaArrives? && ReadHello(cfg.json, e.bytes).Ok? && ReadHello(cfg.json, e.bytes).value.value == key
  }

  /** From a state where a pair waits, it waits until a media socket presents it. */
  lemma {:induction false} WaitsUntilPresented(cfg: Setup, l: Loop, es: seq<Event>, key: MediaBinding)
    requires key in l.pending && forall i :: 0 <= i < |es| ==> !Presents(cfg, es[i], key)
    ensures key in ExecFrom(cfg, l, es).pending
  {
    if es != [] {
      WaitsUntilPresented(cfg, l, es[..|es| - 1], key);
    }
  }

  /** What the joint run makes of the phone's control connection, as the loop sees it. */
  function Connection(phone: Config, net: Net, s: System): Event {
    ControlArrives(s.heard, net.serverSends, phone.sid)
  }

  /** The phone dials this loop over Wi-Fi. */
  predicate Dials(phone: Config, cfg: Setup) {
    phone.kind == Wifi && phone.expected == cfg.token && phone.serverCaps == LOOP_CAPS
  }

  /** The loop accepts the connection of every phone that has sent its MEDIA_HELLO. */
  lemma HelloWasAccepted(cfg: Setup, phone: Config, net: Net, run: seq<System>, i: nat)
    requires Dials(phone, cfg) && IsFaultyRun(phone, net, run) && i < |run| && run[i].media != []
    ensures Verify(cfg, Connection(phone, net, run[i])) == Some(MediaBinding(phone.sid, cfg.token))
    ensures run[i].media == [HelloEnvelope(MediaBinding(phone.sid, cfg.token))]
  {
    MediaHelloMeansAccepted(phone, net, run, i);
    ServerStepsAreAccept(phone, net, run, i);
  }

  /**
   * From the phone's handshake to the running pipeline. Let the loop handle anything, then the phone's
   * control connection, then anything but a media socket that presents the phone's pair. Whatever the
   * handshake went through, if the phone got as far as its MEDIA_HELLO, ready or not, that hello starts
   * the pipeline of the session its connection was accepted as, on exactly the records that follow.
   */
  lemma PhoneIsPaired(
      cfg: Setup, phone: Config, net: Net, run: seq<System>, i: nat,
      before: seq<Event>, between: seq<Event>, records: Bytes)
    requires Lawful(cfg.json) && Dials(phone, cfg)
    requires IsFaultyRun(phone, net, run) && i < |run| && run[i].media != []
    requires |cfg.json.encode(run[i].media[0])| <= U32_MAX
    requires forall k :: 0 <= k < |between| ==> !Presents(cfg, between[k], MediaBinding(phone.sid, cfg.token))
    requires FreshIds(before + [Connection(phone, net, run[i])] + between)
    ensures var session := |Exec(cfg, before).accepted|;
      var l := Exec(cfg, before + [Connection(phone, net, run[i])] + between);
      var json := cfg.json.encode(run[i].media[0]);
      Step(cfg, l, MediaArrives(ToBe(|json|, PREFIX_LEN) + json + records)).delivered
      == l.delivered + [Delivery(session, MediaBinding(phone.sid, cfg.token), records)]
  {
    var key := MediaBinding(phone.sid, cfg.token);
    var dial := Connection(phone, net, run[i]);
    HelloWasAccepted(cfg, phone, net, run, i);
    StaysRegistered(cfg, before, dial, between, key);
    HelloRoundTrip(cfg.json, key, records);
  }

  /** An accepted pair waits for its session until it is presented. */
  lemma StaysRegistered(cfg: Setup, before: seq<Event>, dial: Event, between: seq<Event>, key: MediaBinding)
    requires dial.ControlArrives? && Verify(cfg, dial) == Some(key)
    requires forall k :: 0 <= k < |between| ==> !Presents(cfg, between[k], key)
    requires FreshIds(before + [dial] + between)
    ensures var l := Exec(cfg, before + [dial] + between);
      key in l.pending && l.pending[key] == |Exec(cfg, before).accepted|
  {
    var at := |Exec(cfg, before).accepted|;
    assert (before + [dial])[..|before|] == before;
    var registered := Exec(cfg, before + [dial]);
    assert registered == Register(Exec(cfg, before), key);
    ExecConcat(cfg, before + [dial], between);
    WaitsUntilPresented(cfg, registered, between, key);
    var l := Exec(cfg, before + [dial] + between);
    RunIsSound(cfg, before + [dial] + between);
    FreshMeansDistinct(cfg, before + [dial] + between);
    AcceptedGrows(cfg, registered, between);
    assert l.accepted[at] == registered.accepted[at] == key;
    assert l.accepted[l.pending[key]] == key;
  }

  lemma {:induction false} AcceptedGrows(cfg: Setup, l: Loop, es: seq<Event>)
    ensures var l' := ExecFrom(cfg, l, es);
      |l.accepted| <= |l'.accepted| && l'.accepted[..|l.accepted|] == l.accepted
  {
    if es != [] {
      AcceptedGrows(cfg, l, es[..|es| - 1]);
    }
  }

  // ------------------------------------------------------- the outbound slot

  /** Only a running session ends. */
  ghost predicate Possible(cfg: Setup, es: seq<Event>) {
    forall i :: 0 <= i < |es| && es[i].SessionEnds? ==> es[i].session in Exec(cfg, es[..i]).live
  }

  /** When a session ends, no other one is running. */
  ghost predicate NoOverlap(cfg: Setup, es: seq<Event>) {
    forall i :: 0 <= i < |es| && es[i].SessionEnds? ==> Exec(cfg, es[..i]).live == {es[i].session}
  }

  predicate SlotIsHonest(l: Loop) { l.outbound.Some? <==> l.live != {} }

  /** A filled slot always leads to a running session, the one accepted last. */
  lemma {:induction false} SlotIsLatest(cfg: Setup, es: seq<Event>)
    ensures var l := Exec(cfg, es);
      l.outbound.Some? ==> l.outbound.value in l.live && l.outbound.value == |l.accepted| - 1
  {
    if es != [] {
      SlotIsLatest(cfg, es[..|es| - 1]);
    }
  }

  lemma ExecPrefix(cfg: Setup, es: seq<Event>, i: nat)
    requires i < |es|
    ensures Exec(cfg, es[..i + 1]) == Step(cfg, Exec(cfg, es[..i]), es[i])
  {
    assert es[..i + 1][..i] == es[..i];
  }

  lemma {:induction false} HonestIfNoOverlap(cfg: Setup, es: seq<Event>, n: nat)
    requires NoOverlap(cfg, es) && n <= |es|
    ensures SlotIsHonest(Exec(cfg, es[..n]))
  {
    if n > 0 {
      HonestIfNoOverlap(cfg, es, n - 1);
      ExecPrefix(cfg, es, n - 1);
    }
  }

  /**
   * The slot tells at every moment whether a session is running, exactly when no session ends while
   * another one runs. A session that ends clears the slot even when it is another session's.
   */
  lemma SlotIsHonestIff(cfg: Setup, es: seq<Event>)
    requires Possible(cfg, es)
    ensures (forall n :: 0 <= n <= |es| ==> SlotIsHonest(Exec(cfg, es[..n]))) <==> NoOverlap(cfg, es)
  {
    if NoOverlap(cfg, es) {
      forall n | 0 <= n <= |es|
        ensures SlotIsHonest(Exec(cfg, es[..n]))
      {
        HonestIfNoOverlap(cfg, es, n);
      }
    } else {
      var i :| 0 <= i < |es| && es[i].SessionEnds? && Exec(cfg, es[..i]).live != {es[i].session};
      ExecPrefix(cfg, es, i);
      assert es[i].session in Exec(cfg, es[..i]).live;
      var other :| other in Exec(cfg, es[..i]).live && other != es[i].session;
      assert other in Exec(cfg, es[..i + 1]).live;
      assert !SlotIsHonest(Exec(cfg, es[..i + 1]));
    }
  }

  /** A phone with the right version and token. */
  function Joins(cfg: Setup, sid: string): Event {
    var hello := Hello(PROTO_VER, "ClearCam-iOS/0.1.0", "iPhone", "candidate", [CapHevc]);
    ControlArrives(
      [Message(Envelope(1, None, HelloMsg(hello))), Message(Envelope(2, None, AuthMsg(Token(cfg.token))))], 2, sid)
  }

  /** Two phones connect and the first one leaves: the second runs on with no way to command it. */
  lemma SlotCanLie(cfg: Setup, a: string, b: string)
    ensures var es := [Joins(cfg, a), Joins(cfg, b), SessionEnds(0)];
      Possible(cfg, es) && Exec(cfg, es).live == {1} && Exec(cfg, es).outbound == None
  {
    var es := [Joins(cfg, a), Joins(cfg, b), SessionEnds(0)];
    AcceptIff(Wifi, cfg.token, LOOP_CAPS, a, es[0].inbox, 2);
    AcceptIff(Wifi, cfg.token, LOOP_CAPS, b, es[1].inbox, 2);
    ExecPrefix(cfg, es, 0);
    ExecPrefix(cfg, es, 1);
    ExecPrefix(cfg, es, 2);
    assert es[..3] == es;
  }
}
