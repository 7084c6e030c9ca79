/** The control handshake: the desktop's accept half, the phone's connect half, and their joint runs. */
module Handshake {
  import opened Common
  import opened Protocol

  datatype SessionError =
    | HandshakeTimeout
    | Transport
    | Unauthorised
    | IncompatibleProtoVer(peer: u32, local: u32)
    | UnexpectedMessage(what: string)

  datatype AcceptedSession = AcceptedSession(sessionId: string, token: string, hello: Hello)

  /** Wi-Fi sessions present the QR token, USB sessions the pairing key. */
  datatype Kind = Wifi | Usb

  predicate Authorises(kind: Kind, expected: string, auth: Auth) {
    match auth
    case Token(t) => kind == Wifi && t == expected
    case PairingKey(k) => kind == Usb && k == expected
  }

  function CredentialOf(auth: Auth): string {
    match auth case Token(t) => t case PairingKey(k) => k
  }

  // ---------------------------------------------------------------- server

  function ErrorReply(ack: u64, code: ErrorCode, message: string): Envelope {
    Envelope(0, Some(ack), ErrorMsg(code, message))
  }

  function Agreed(serverCaps: seq<Capability>, clientCaps: seq<Capability>): (r: seq<Capability>)
    ensures forall c :: c in r <==> c in serverCaps && c in clientCaps
  {
    if serverCaps == [] then []
    else
      Agreed(serverCaps[..|serverCaps| - 1], clientCaps)
      + var c := serverCaps[|serverCaps| - 1]; if c in clientCaps then [c] else []
  }

  /** What the server answers, and what it does next. */
  datatype Verdict<T> = Proceed(reply: Envelope, value: T) | Reject(reply: Envelope, error: SessionError)

  function OnHello(env: Envelope, serverCaps: seq<Capability>): Verdict<Hello> {
    match env.body
    case HelloMsg(h) =>
      if h.protoVer != PROTO_VER then
        Reject(ErrorReply(env.seqNo, IncompatibleVersion, "proto version mismatch"),
               IncompatibleProtoVer(h.protoVer, PROTO_VER))
      else Proceed(Envelope(0, Some(env.seqNo), HelloAck(PROTO_VER, Agreed(serverCaps, h.caps))), h)
    case _ => Reject(ErrorReply(env.seqNo, BadRequest, "expected HELLO"), UnexpectedMessage("expected HELLO"))
  }

  function OnAuth(kind: Kind, expected: string, env: Envelope, sid: string, hello: Hello): Verdict<AcceptedSession> {
    match env.body
    case AuthMsg(auth) =>
      if Authorises(kind, expected, auth) then
        Proceed(Envelope(1, Some(env.seqNo), AuthOk(sid)), AcceptedSession(sid, CredentialOf(auth), hello))
      else
        Reject(ErrorReply(env.seqNo, Unauthorized, RefusalText(kind, auth)), Unauthorised)
    case _ => Reject(ErrorReply(env.seqNo, BadRequest, "expected AUTH"), UnexpectedMessage("expected AUTH"))
  }

  function RefusalText(kind: Kind, auth: Auth): string {
    if kind == Wifi then "bad token"
    else if auth.Token? then "USB session requires pairingKey, not token"
    else "pairing key mismatch"
  }

  /** What a receive yields. An exhausted inbox is a silent peer: the receive times out. */
  datatype Receive = Message(env: Envelope) | Broken

  /** One end of a control connection: what will arrive, what was sent, how many sends still succeed. */
  class ControlStream {
    var inbox: seq<Receive>
    var outbox: seq<Envelope>
    var sendsLeft: nat

    method Recv() returns (r: Result<Envelope, SessionError>)
      modifies this`inbox
      ensures old(inbox) == [] ==> inbox == [] && r == Err(HandshakeTimeout)
      ensures old(inbox) != [] ==> inbox == old(inbox)[1..]
      ensures old(inbox) != [] && old(inbox)[0].Broken? ==> r == Err(Transport)
      ensures old(inbox) != [] && old(inbox)[0].Message? ==> r == Ok(old(inbox)[0].env)
    {
      if inbox == [] {
        return Err(HandshakeTimeout);
      }
      r := match inbox[0] case Broken => Err(Transport) case Message(e) => Ok(e);
      inbox := inbox[1..];
    }

    method Send(env: Envelope) returns (ok: bool)
      modifies this`outbox, this`sendsLeft
      ensures ok <==> old(sendsLeft) > 0
      ensures ok ==> outbox == old(outbox) + [env] && sendsLeft == old(sendsLeft) - 1
      ensures !ok ==> outbox == old(outbox) && sendsLeft == 0
    {
      ok := sendsLeft > 0;
      if ok {
        outbox := outbox + [env];
        sendsLeft := sendsLeft - 1;
      }
    }
  }

  datatype ServerOutcome = ServerOutcome(result: Result<AcceptedSession, SessionError>, sent: seq<Envelope>)

  function ReceiveError(inbox: seq<Receive>): SessionError
    requires inbox == [] || inbox[0].Broken?
  {
    if inbox == [] then HandshakeTimeout else Transport
  }

  /** The whole accept, as a function of everything the peer and the network do. */
  function ServerRun(
      kind: Kind, expected: string, caps: seq<Capability>, sid: string, inbox: seq<Receive>, sends: nat)
      : ServerOutcome
  {
    if inbox == [] || inbox[0].Broken? then ServerOutcome(Err(ReceiveError(inbox)), [])
    else
      match OnHello(inbox[0].env, caps)
      case Reject(reply, error) => Rejected(reply, error, [], sends)
      case Proceed(ack, hello) =>
        if sends == 0 then ServerOutcome(Err(Transport), [])
        else if inbox[1..] == [] || inbox[1].Broken? then ServerOutcome(Err(ReceiveError(inbox[1..])), [ack])
        else
          match OnAuth(kind, expected, inbox[1].env, sid, hello)
          case Reject(reply, error) => Rejected(reply, error, [ack], sends - 1)
          case Proceed(ok, session) =>
            if sends == 1 then ServerOutcome(Err(Transport), [ack])
            else ServerOutcome(Ok(session), [ack, ok])
  }

  function Rejected(reply: Envelope, error: SessionError, before: seq<Envelope>, sends: nat): ServerOutcome {
    if sends == 0 then ServerOutcome(Err(Transport), before) else ServerOutcome(Err(error), before + [reply])
  }

  /** The accept of either transport; `sid` is the freshly generated session id. */
  method AcceptControl(stream: ControlStream, kind: Kind, expected: string, caps: seq<Capability>, sid: string)
      returns (r: Result<AcceptedSession, SessionError>)
    modifies stream
    ensures var o := ServerRun(kind, expected, caps, sid, old(stream.inbox), old(stream.sendsLeft));
      r == o.result && stream.outbox == old(stream.outbox) + o.sent
  {
    ghost var inbox, outbox := stream.inbox, stream.outbox;
    var first := stream.Recv();
    if first.Err? {
      return Err(first.error);
    }
    var helloVerdict := OnHello(first.value, caps);
    var sent := stream.Send(helloVerdict.reply);
    if !sent {
      return Err(Transport);
    }
    if helloVerdict.Reject? {
      return Err(helloVerdict.error);
    }
    assert stream.outbox == outbox + [helloVerdict.reply];
    var second := stream.Recv();
    if second.Err? {
      return Err(second.error);
    }
    var authVerdict := OnAuth(kind, expected, second.value, sid, helloVerdict.value);
    sent := stream.Send(authVerdict.reply);
    if !sent {
      return Err(Transport);
    }
    assert stream.outbox == outbox + [helloVerdict.reply, authVerdict.reply];
    if authVerdict.Reject? {
      return Err(authVerdict.error);
    }
    r := Ok(authVerdict.value);
  }

  /**
   * Against any peer whatsoever: the server accepts exactly a HELLO of version 1 followed by an AUTH
   * with the expected token over Wi-Fi, or the expected pairing key over USB, both replies delivered;
   * and it accepts that HELLO and credential under the fresh id.
   */
  lemma AcceptIff(kind: Kind, expected: string, caps: seq<Capability>, sid: string, inbox: seq<Receive>, sends: nat)
    ensures var o := ServerRun(kind, expected, caps, sid, inbox, sends);
      && (o.result.Ok? <==>
            && sends >= 2 && |inbox| >= 2 && inbox[0].Message? && inbox[1].Message?
            && inbox[0].env.body.HelloMsg? && inbox[0].env.body.hello.protoVer == 1
            && (|| (kind == Wifi && inbox[1].env.body == AuthMsg(Token(expected)))
                || (kind == Usb && inbox[1].env.body == AuthMsg(PairingKey(expected)))))
      && (o.result.Ok? ==> o.result.value == AcceptedSession(sid, expected, inbox[0].env.body.hello))
  {
  }

  /** What an accepted peer is told: the version, exactly the capabilities both ends have, and its id. */
  lemma AcceptReplies(kind: Kind, expected: string, caps: seq<Capability>, sid: string, inbox: seq<Receive>, sends: nat)
    requires ServerRun(kind, expected, caps, sid, inbox, sends).result.Ok?
    ensures var sent := ServerRun(kind, expected, caps, sid, inbox, sends).sent;
      && |sent| == 2 && sent[0].seqNo == 0 && sent[0].ack == Some(inbox[0].env.seqNo)
      && sent[0].body.HelloAck? && sent[0].body.protoVer == 1
      && (forall c :: c in sent[0].body.caps <==> c in caps && c in inbox[0].env.body.hello.caps)
      && sent[1] == Envelope(1, Some(inbox[1].env.seqNo), AuthOk(sid))
  {
  }

  /** How the desktop tells apart what it refuses: the code it sends and the error it returns. */
  lemma RefusalTells(kind: Kind, expected: string, caps: seq<Capability>, sid: string, inbox: seq<Receive>, sends: nat)
    requires sends >= 2 && inbox != [] && inbox[0].Message?
    ensures var o, first := ServerRun(kind, expected, caps, sid, inbox, sends), inbox[0].env;
      && (!first.body.HelloMsg? ==>
            && o.result == Err(UnexpectedMessage("expected HELLO"))
            && |o.sent| == 1 && o.sent[0].body == ErrorMsg(BadRequest, "expected HELLO"))
      && (first.body.HelloMsg? && first.body.hello.protoVer != 1 ==>
            && o.result == Err(IncompatibleProtoVer(first.body.hello.protoVer, 1))
            && |o.sent| == 1 && o.sent[0].body.ErrorMsg? && o.sent[0].body.code == IncompatibleVersion)
      && (first.body.HelloMsg? && first.body.hello.protoVer == 1 && |inbox| >= 2 && inbox[1].Message? ==>
            var second := inbox[1].env;
            && (!second.body.AuthMsg? ==>
                  && o.result == Err(UnexpectedMessage("expected AUTH"))
                  && |o.sent| == 2 && o.sent[1].body == ErrorMsg(BadRequest, "expected AUTH"))
            && (second.body.AuthMsg?
                && !(kind == Wifi && second.body.auth == Token(expected))
                && !(kind == Usb && second.body.auth == PairingKey(expected)) ==>
                  && o.result == Err(Unauthorised)
                  && |o.sent| == 2 && o.sent[1].body.ErrorMsg? && o.sent[1].body.code == Unauthorized))
  {
  }

  /** A silent peer is a timeout, a broken connection a transport error; neither is sent an ERROR. */
  lemma SilenceTells(kind: Kind, expected: string, caps: seq<Capability>, sid: string, inbox: seq<Receive>, sends: nat)
    ensures var o := ServerRun(kind, expected, caps, sid, inbox, sends);
      && (inbox == [] ==> o == ServerOutcome(Err(HandshakeTimeout), []))
      && (inbox != [] && inbox[0].Broken? ==> o == ServerOutcome(Err(Transport), []))
      && (o.result == Err(HandshakeTimeout) || o.result == Err(Transport) ==>
            forall i :: 0 <= i < |o.sent| ==> !IsError(o.sent[i]))
  {
  }

  predicate IsError(e: Envelope) { e.body.ErrorMsg? }

  /** At most one ERROR is ever sent; it comes last and acknowledges the message that provoked it. */
  lemma OneErrorLast(
      kind: Kind, expected: string, caps: seq<Capability>, sid: string, inbox: seq<Receive>, sends: nat, i: nat)
    requires var o := ServerRun(kind, expected, caps, sid, inbox, sends); i < |o.sent| && IsError(o.sent[i])
    ensures var o := ServerRun(kind, expected, caps, sid, inbox, sends);
      && o.result.Err? && i == |o.sent| - 1 && i < |inbox| && inbox[i].Message?
      && o.sent[i].ack == Some(inbox[i].env.seqNo)
  {
  }

  // ---------------------------------------------------------------- client

  /** What one connection attempt is configured with, on both ends. */
  datatype Config = Config(
    kind: Kind, expected: string, serverCaps: seq<Capability>, sid: string,
    clientVer: u32, auth: Auth, candidate: string, info: DeviceInfo, cameras: Option<seq<string>>)

  function ClientHello(cfg: Config, n: u64): Envelope {
    Envelope(n, None, HelloMsg(Hello(cfg.clientVer, "ClearCam-iOS/0.1.0", cfg.info.model, cfg.candidate,
                                     [CapHevc, CapH264, CapRawNv12])))
  }

  function ClientAuth(cfg: Config, n: u64): Envelope { Envelope(n, None, AuthMsg(cfg.auth)) }

  /** Sent on the control channel once a session id is known. */
  function ClientReport(cfg: Config, n: u64): seq<Envelope>
    requires n < U64_MAX
  {
    [Envelope(n, None, DeviceInfoMsg(cfg.info))]
    + match cfg.cameras case None => [] case Some(cs) => [Envelope(n + 1, None, CameraList(cs))]
  }

  function MediaHelloOf(cfg: Config, sid: string): Envelope {
    Envelope(0, None, MediaHello(sid, CredentialOf(cfg.auth)))
  }

  /** What the phone's user interface shows. */
  datatype SessionState = NotStarted | Handshaking | SessionReady(sid: string) | SessionStopped

  datatype ClientError = ClientTransport | AuthFailed(message: string) | ClientUnexpected(what: string)

  datatype ClientOutcome = ClientOutcome(
    state: SessionState, result: Result<string, ClientError>, sent: seq<Envelope>, media: seq<Envelope>)

  /** How the phone reports an answer it did not hope for. */
  function Refusal(body: ControlMessage, expectation: string): ClientError {
    if body.ErrorMsg? then AuthFailed(body.message) else ClientUnexpected(expectation)
  }

  /**
   * The connect from AUTH on, as a function of what arrives and of how many sends each channel still
   * carries. A failed send or receive is rethrown with the state left at handshaking.
   */
  function AuthRun(cfg: Config, n: u64, inbox: seq<Receive>, sends: nat, mediaSends: nat): ClientOutcome
    requires n + 3 <= U64_MAX
  {
    var auth := ClientAuth(cfg, n + 1);
    if sends == 0 then ClientOutcome(Handshaking, Err(ClientTransport), [], [])
    else if inbox == [] || inbox[0].Broken? then ClientOutcome(Handshaking, Err(ClientTransport), [auth], [])
    else if !inbox[0].env.body.AuthOk? then
      ClientOutcome(SessionStopped, Err(Refusal(inbox[0].env.body, "expected AUTH_OK")), [auth], [])
    else
      var sid, report := inbox[0].env.body.sessionId, ClientReport(cfg, n + 2);
      if mediaSends == 0 then ClientOutcome(Handshaking, Err(ClientTransport), [auth], [])
      else if sends < 1 + |report| then
        ClientOutcome(Handshaking, Err(ClientTransport), [auth] + report[..sends - 1], [MediaHelloOf(cfg, sid)])
      else ClientOutcome(SessionReady(sid), Ok(sid), [auth] + report, [MediaHelloOf(cfg, sid)])
  }

  /** The whole connect. Only a failed first receive is turned into a stopped state. */
  function ClientRun(cfg: Config, n: u64, inbox: seq<Receive>, sends: nat, mediaSends: nat): ClientOutcome
    requires n + 4 <= U64_MAX
  {
    var hello := ClientHello(cfg, n + 1);
    if sends == 0 then ClientOutcome(Handshaking, Err(ClientTransport), [], [])
    else if inbox == [] || inbox[0].Broken? then ClientOutcome(SessionStopped, Err(ClientTransport), [hello], [])
    else if !inbox[0].env.body.HelloAck? then
      ClientOutcome(SessionStopped, Err(Refusal(inbox[0].env.body, "expected HELLO_ACK")), [hello], [])
    else
      var o := AuthRun(cfg, n + 1, inbox[1..], sends - 1, mediaSends);
      o.(sent := [hello] + o.sent)
  }

  predicate WellGreeted(inbox: seq<Receive>, sends: nat) {
    sends >= 1 && inbox != [] && inbox[0].Message? && inbox[0].env.body.HelloAck?
  }

  /** A connect is its greeting and, if that goes well, the rest. */
  lemma GreetedOrNot(cfg: Config, n: u64, inbox: seq<Receive>, sends: nat, mediaSends: nat)
    requires n + 4 <= U64_MAX
    ensures var o := ClientRun(cfg, n, inbox, sends, mediaSends);
      if WellGreeted(inbox, sends) then
        var rest := AuthRun(cfg, n + 1, inbox[1..], sends - 1, mediaSends);
        && o.state == rest.state && o.result == rest.result && o.media == rest.media
        && o.sent == [ClientHello(cfg, n + 1)] + rest.sent
      else
        o == ClientRun(cfg, n, inbox, sends, 0) && o.media == []
  {
  }

  lemma RegroupEnvelopes(a: seq<Envelope>, b: seq<Envelope>, c: seq<Envelope>)
    ensures a + b + c == a + (b + c)
  {
  }

  class SessionController {
    var state: SessionState
    var sessionId: Option<string>
    var seqNo: u64

    constructor ()
      ensures state == NotStarted && sessionId == None && seqNo == 0
    {
      state, sessionId, seqNo := NotStarted, None, 0;
    }

    method Connect(cfg: Config, control: ControlStream, media: ControlStream) returns (r: Result<string, ClientError>)
      requires seqNo + 4 <= U64_MAX && control != media
      modifies this, control, media
      ensures var o := ClientRun(cfg, old(seqNo), old(control.inbox), old(control.sendsLeft), old(media.sendsLeft));
        && r == o.result && state == o.state
        && control.outbox == old(control.outbox) + o.sent && media.outbox == old(media.outbox) + o.media
      ensures r.Ok? ==> sessionId == Some(r.value)
    {
      ghost var outbox, mediaBox := control.outbox, media.outbox;
      GreetedOrNot(cfg, seqNo, control.inbox, control.sendsLeft, media.sendsLeft);
      var failure := Greet(cfg, control);
      if failure.Some? {
        assert mediaBox + [] == mediaBox;
        return Err(failure.value);
      }
      ghost var rest := AuthRun(cfg, seqNo, control.inbox, control.sendsLeft, media.sendsLeft).sent;
      RegroupEnvelopes(outbox, [ClientHello(cfg, seqNo)], rest);
      r := Authenticate(cfg, control, media);
    }

    /** HELLO and its answer. */
    method Greet(cfg: Config, control: ControlStream) returns (failure: Option<ClientError>)
      requires seqNo + 4 <= U64_MAX
      modifies this, control
      ensures seqNo == old(seqNo) + 1
      ensures failure.None? <==> WellGreeted(old(control.inbox), old(control.sendsLeft))
      ensures failure.None? ==>
        && state == Handshaking && control.inbox == old(control.inbox)[1..]
        && control.sendsLeft == old(control.sendsLeft) - 1
        && control.outbox == old(control.outbox) + [ClientHello(cfg, seqNo)]
      ensures failure.Some? ==>
        var o := ClientRun(cfg, old(seqNo), old(control.inbox), old(control.sendsLeft), 0);
        o.result == Err(failure.value) && o.state == state && control.outbox == old(control.outbox) + o.sent
    {
      state := Handshaking;
      seqNo := seqNo + 1;
      var ok := control.Send(ClientHello(cfg, seqNo));
      if !ok { return Some(ClientTransport); }
      var ack := control.Recv();
      if ack.Err? {
        state := SessionStopped;
        return Some(ClientTransport);
      }
      if !ack.value.body.HelloAck? {
        state := SessionStopped;
        return Some(Refusal(ack.value.body, "expected HELLO_ACK"));
      }
      failure := None;
    }

    /** The rest of the connect, from AUTH on. */
    method Authenticate(cfg: Config, control: ControlStream, media: ControlStream)
        returns (r: Result<string, ClientError>)
      requires seqNo + 3 <= U64_MAX && control != media && state == Handshaking
      modifies this, control, media
      ensures var o := AuthRun(cfg, old(seqNo), old(control.inbox), old(control.sendsLeft), old(media.sendsLeft));
        && r == o.result && state == o.state
        && control.outbox == old(control.outbox) + o.sent && media.outbox == old(media.outbox) + o.media
      ensures r.Ok? ==> sessionId == Some(r.value)
    {
      seqNo := seqNo + 1;
      var ok := control.Send(ClientAuth(cfg, seqNo));
      if !ok { return Err(ClientTransport); }
      var resp := control.Recv();
      if resp.Err? { return Err(ClientTransport); }
      if !resp.value.body.AuthOk? {
        state := SessionStopped;
        return Err(Refusal(resp.value.body, "expected AUTH_OK"));
      }
      var sid := resp.value.body.sessionId;
      sessionId := Some(sid);
      ok := media.Send(MediaHelloOf(cfg, sid));
      if !ok { return Err(ClientTransport); }
      ok := Report(cfg, control);
      if !ok { return Err(ClientTransport); }
      state := SessionReady(sid);
      r := Ok(sid);
    }

    /** DEVICE_INFO and, if cameras are known, CAMERA_LIST; it stops at the first failed send. */
    method Report(cfg: Config, control: ControlStream) returns (ok: bool)
      requires seqNo + 2 <= U64_MAX
      modifies this`seqNo, control
      ensures var report, sends := ClientReport(cfg, old(seqNo) + 1), old(control.sendsLeft);
        && (ok <==> sends >= |report|)
        && control.outbox == old(control.outbox) + report[..Min(sends, |report|)]
    {
      ghost var outbox, report := control.outbox, ClientReport(cfg, seqNo + 1);
      assert outbox + [] == outbox;
      seqNo := seqNo + 1;
      ok := control.Send(Envelope(seqNo, None, DeviceInfoMsg(cfg.info)));
      if !ok { return; }
      assert control.outbox == outbox + report[..1];
      if cfg.cameras.Some? {
        seqNo := seqNo + 1;
        ok := control.Send(Envelope(seqNo, None, CameraList(cfg.cameras.value)));
        assert ok ==> control.outbox == outbox + report[..2];
      }
    }
  }

  /**
   * Exactly when the phone sends MEDIA_HELLO and exactly when it becomes ready, against any peer and with
   * any number of sends succeeding. Between the two lie the reports, whose failure leaves the phone
   * handshaking with its MEDIA_HELLO already sent.
   */
  lemma ConnectIff(cfg: Config, n: u64, inbox: seq<Receive>, sends: nat, mediaSends: nat)
    requires n + 4 <= U64_MAX
    ensures var o := ClientRun(cfg, n, inbox, sends, mediaSends);
      var admitted := |inbox| >= 2 && inbox[0].Message? && inbox[1].Message?
                      && inbox[0].env.body.HelloAck? && inbox[1].env.body.AuthOk?;
      && (o.media != [] <==> admitted && sends >= 2 && mediaSends >= 1)
      && (o.media != [] ==> o.media == [MediaHelloOf(cfg, inbox[1].env.body.sessionId)])
      && (o.state.SessionReady? <==> o.media != [] && sends >= 2 + |ClientReport(cfg, n + 3)|)
      && (o.state.SessionReady? ==> o.state.sid == inbox[1].env.body.sessionId)
      && (o.result.Ok? <==> o.state.SessionReady?) && (o.result.Ok? ==> o.result.value == o.state.sid)
      && (o.media != [] && !o.state.SessionReady? ==> o.state == Handshaking)
  {
  }

  /** All a ready phone has said, in order and numbered from `n + 1`. */
  lemma ReadyPhoneSaid(cfg: Config, n: u64, inbox: seq<Receive>, sends: nat, mediaSends: nat)
    requires n + 4 <= U64_MAX && ClientRun(cfg, n, inbox, sends, mediaSends).state.SessionReady?
    ensures var said := ClientRun(cfg, n, inbox, sends, mediaSends).sent;
      && |said| == (if cfg.cameras.Some? then 4 else 3)
      && said[0].body.HelloMsg? && said[0].body.hello.protoVer == cfg.clientVer
      && said[0].body.hello.caps == [CapHevc, CapH264, CapRawNv12]
      && said[1].body == AuthMsg(cfg.auth) && said[2].body == DeviceInfoMsg(cfg.info)
      && (cfg.cameras.Some? ==> said[3].body == CameraList(cfg.cameras.value))
      && forall k :: 0 <= k < |said| ==> said[k].seqNo == n + 1 + k && said[k].ack == None
  {
  }

  /** A refusal is shown with the desktop's own words, whichever of the two messages it answers. */
  lemma RefusedPhone(cfg: Config, n: u64, inbox: seq<Receive>, sends: nat, mediaSends: nat)
    requires n + 4 <= U64_MAX && sends >= 2 && inbox != [] && inbox[0].Message?
    ensures var o := ClientRun(cfg, n, inbox, sends, mediaSends);
      && (IsError(inbox[0].env) ==>
            o.state == SessionStopped && o.result == Err(AuthFailed(inbox[0].env.body.message)))
      && (inbox[0].env.body.HelloAck? && |inbox| >= 2 && inbox[1].Message? && IsError(inbox[1].env) ==>
            o.state == SessionStopped && o.result == Err(AuthFailed(inbox[1].env.body.message)))
  {
  }

  // ------------------------------------------------------------ joint steps

  /** Version 1, and the credential that belongs to the transport. */
  predicate Matches(cfg: Config) {
    && cfg.clientVer == 1
    && (|| (cfg.kind == Wifi && cfg.auth == Token(cfg.expected))
        || (cfg.kind == Usb && cfg.auth == PairingKey(cfg.expected)))
  }

  /** Where the connect stands; `Abandoned` has thrown with the state left at handshaking. */
  datatype ClientState =
    | Idle
    | AwaitingAck
    | SendingAuth
    | AwaitingAuthOk
    | Binding(sid: string)
    | Reporting(sid: string, done: nat)
    | Ready(sid: string)
    | Stopped
    | Abandoned

  datatype ServerState =
    | AwaitingHello
    | AwaitingAuth(hello: Hello)
    | Accepted(session: AcceptedSession)
    | Failed(error: SessionError)

  /** Both ends, the FIFO channels between them, and what each end has received and sent so far. */
  datatype System = System(
    client: ClientState, told: seq<Receive>, said: seq<Envelope>, media: seq<Envelope>,
    server: ServerState, heard: seq<Receive>, sent: seq<Envelope>,
    toServer: seq<Envelope>, toClient: seq<Envelope>)

  const START := System(Idle, [], [], [], AwaitingHello, [], [], [], [])

  /** How many sends succeed on each channel before it breaks. */
  datatype Net = Net(serverSends: nat, clientSends: nat, mediaSends: nat)

  predicate Sending(c: ClientState) { c.Idle? || c.SendingAuth? || c.Binding? || c.Reporting? }

  predicate Awaiting(c: ClientState) { c.AwaitingAck? || c.AwaitingAuthOk? }

  predicate ClientCanStep(s: System) { Sending(s.client) || (Awaiting(s.client) && s.toClient != []) }

  /** A send on the control channel: on a broken one the connect throws. */
  function Say(net: Net, s: System, e: Envelope, next: ClientState): System {
    if |s.said| >= net.clientSends then s.(client := Abandoned)
    else s.(client := next, said := s.said + [e], toServer := s.toServer + [e])
  }

  function Told(s: System, next: ClientState): System
    requires s.toClient != []
  {
    s.(client := next, told := s.told + [Message(s.toClient[0])], toClient := s.toClient[1..])
  }

  /** One send or one receive of the phone. */
  function ClientStep(cfg: Config, net: Net, s: System): System
    requires ClientCanStep(s)
  {
    match s.client
    case Idle => Say(net, s, ClientHello(cfg, 1), AwaitingAck)
    case AwaitingAck => Told(s, if s.toClient[0].body.HelloAck? then SendingAuth else Stopped)
    case SendingAuth => Say(net, s, ClientAuth(cfg, 2), AwaitingAuthOk)
    case AwaitingAuthOk =>
      Told(s, if s.toClient[0].body.AuthOk? then Binding(s.toClient[0].body.sessionId) else Stopped)
    case Binding(sid) =>
      if net.mediaSends == 0 then s.(client := Abandoned)
      else s.(client := Reporting(sid, 0), media := s.media + [MediaHelloOf(cfg, sid)])
    case Reporting(sid, k) =>
      var report := ClientReport(cfg, 3);
      if k >= |report| then s.(client := Ready(sid)) else Say(net, s, report[k], Reporting(sid, k + 1))
  }

  predicate ServerWaits(s: System) { s.server.AwaitingHello? || s.server.AwaitingAuth? }

  predicate ServerCanStep(s: System) { ServerWaits(s) && s.toServer != [] }

  /** The reply to the message at the head of the queue, lost with the session on a broken channel. */
  function Answer(net: Net, s: System, reply: Envelope, next: ServerState): System
    requires s.toServer != []
  {
    var s' := s.(heard := s.heard + [Message(s.toServer[0])], toServer := s.toServer[1..]);
    if |s.sent| >= net.serverSends then s'.(server := Failed(Transport))
    else s'.(server := next, toClient := s.toClient + [reply], sent := s.sent + [reply])
  }

  /** One receive of the desktop and its reply. */
  function ServerStep(cfg: Config, net: Net, s: System): System
    requires ServerCanStep(s)
  {
    match s.server
    case AwaitingHello =>
      (match OnHello(s.toServer[0], cfg.serverCaps)
       case Proceed(ack, hello) => Answer(net, s, ack, AwaitingAuth(hello))
       case Reject(reply, error) => Answer(net, s, reply, Failed(error)))
    case AwaitingAuth(hello) =>
      match OnAuth(cfg.kind, cfg.expected, s.toServer[0], cfg.sid, hello)
      case Proceed(ok, session) => Answer(net, s, ok, Accepted(session))
      case Reject(reply, error) => Answer(net, s, reply, Failed(error))
  }

  predicate Works(cfg: Config, net: Net, s: System, s': System) {
    || (ClientCanStep(s) && s' == ClientStep(cfg, net, s))
    || (ServerCanStep(s) && s' == ServerStep(cfg, net, s))
  }

  /** The phone's receive fails: before HELLO_ACK it stops, after that it throws. */
  function ClientCut(s: System): System {
    s.(client := if s.client.AwaitingAck? then Stopped else Abandoned, told := s.told + [Broken])
  }

  /** A message is lost, or a receive times out or breaks. Failing sends are `Net`'s. */
  ghost predicate Fault(s: System, s': System) {
    || (exists i :: 0 <= i < |s.toServer| && s' == s.(toServer := s.toServer[..i] + s.toServer[i + 1..]))
    || (exists i :: 0 <= i < |s.toClient| && s' == s.(toClient := s.toClient[..i] + s.toClient[i + 1..]))
    || (Awaiting(s.client) && s' == ClientCut(s))
    || (ServerWaits(s) && s' == s.(server := Failed(HandshakeTimeout)))
    || (ServerWaits(s) && s' == s.(server := Failed(Transport), heard := s.heard + [Broken]))
  }

  ghost predicate IsFaultyRun(cfg: Config, net: Net, run: seq<System>) {
    && run != [] && run[0] == START
    && forall i :: 0 < i < |run| ==> Works(cfg, net, run[i - 1], run[i]) || Fault(run[i - 1], run[i])
  }

  // ------------------------------------------- each end is the method it models

  /** A desktop in this state has sent and decided what its accept does with what it heard. */
  predicate AcceptsSoFar(cfg: Config, net: Net, server: ServerState, heard: seq<Receive>, sent: seq<Envelope>) {
    var o := ServerRun(cfg.kind, cfg.expected, cfg.serverCaps, cfg.sid, heard, net.serverSends);
    && sent == o.sent
    && match server
       case AwaitingHello => heard == []
       case AwaitingAuth(hello) =>
         && |heard| == 1 && heard[0].Message? && net.serverSends >= 1
         && OnHello(heard[0].env, cfg.serverCaps).Proceed?
         && OnHello(heard[0].env, cfg.serverCaps).value == hello
       case Accepted(a) => o.result == Ok(a)
       case Failed(e) => o.result == Err(e)
  }

  /** What the phone has been told makes it go on to AUTH_OK's report. */
  predicate Admitted(told: seq<Receive>, sid: string) {
    && |told| == 2 && told[0].Message? && told[0].env.body.HelloAck?
    && told[1].Message? && told[1].env.body == AuthOk(sid)
  }

  /** A phone in this state has sent what its connect does with what it was told, and ended as that does. */
  predicate ConnectsSoFar(
      cfg: Config, net: Net, client: ClientState, told: seq<Receive>, said: seq<Envelope>, media: seq<Envelope>) {
    var o := ClientRun(cfg, 0, told, net.clientSends, net.mediaSends);
    var hello, auth, report := ClientHello(cfg, 1), ClientAuth(cfg, 2), ClientReport(cfg, 3);
    match client
    case Idle => told == [] && said == [] && media == []
    case AwaitingAck => told == [] && said == [hello] && media == [] && net.clientSends >= 1
    case SendingAuth => Acknowledged(told) && said == [hello] && media == [] && net.clientSends >= 1
    case AwaitingAuthOk => Acknowledged(told) && said == [hello, auth] && media == [] && net.clientSends >= 2
    case Binding(sid) => Admitted(told, sid) && said == [hello, auth] && media == [] && net.clientSends >= 2
    case Reporting(sid, k) =>
      && Admitted(told, sid) && k <= |report| && said == [hello, auth] + report[..k]
      && media == [MediaHelloOf(cfg, sid)] && net.mediaSends >= 1 && net.clientSends >= 2 + k
    case Ready(sid) => o.state == SessionReady(sid) && said == o.sent && media == o.media
    case Stopped => o.state == SessionStopped && said == o.sent && media == o.media
    case Abandoned => o.state == Handshaking && said == o.sent && media == o.media
  }

  predicate Acknowledged(told: seq<Receive>) { |told| == 1 && told[0].Message? && told[0].env.body.HelloAck? }

  predicate ServerIsAccept(cfg: Config, net: Net, s: System) { AcceptsSoFar(cfg, net, s.server, s.heard, s.sent) }

  predicate ClientIsConnect(cfg: Config, net: Net, s: System) {
    ConnectsSoFar(cfg, net, s.client, s.told, s.said, s.media)
  }

  lemma ServerStepIsAccept(cfg: Config, net: Net, s: System)
    requires ServerIsAccept(cfg, net, s) && ServerCanStep(s)
    ensures ServerIsAccept(cfg, net, ServerStep(cfg, net, s))
  {
    if s.server.AwaitingHello? {
      HelloStepIsAccept(cfg, net, s);
    } else {
      AuthStepIsAccept(cfg, net, s);
    }
  }

  lemma HelloStepIsAccept(cfg: Config, net: Net, s: System)
    requires ServerIsAccept(cfg, net, s) && s.server.AwaitingHello? && s.toServer != []
    ensures ServerIsAccept(cfg, net, ServerStep(cfg, net, s))
  {
    assert s.heard + [Message(s.toServer[0])] == [Message(s.toServer[0])];
  }

  lemma AuthStepIsAccept(cfg: Config, net: Net, s: System)
    requires ServerIsAccept(cfg, net, s) && s.server.AwaitingAuth? && s.toServer != []
    ensures ServerIsAccept(cfg, net, ServerStep(cfg, net, s))
  {
    var m := Message(s.toServer[0]);
    assert (s.heard + [m])[1..] == [m] && (s.heard + [m])[0] == s.heard[0];
  }

  lemma ServerFaultIsAccept(cfg: Config, net: Net, s: System, s': System)
    requires ServerIsAccept(cfg, net, s) && Fault(s, s')
    ensures ServerIsAccept(cfg, net, s')
  {
    if ServerWaits(s) && s' == s.(server := Failed(Transport), heard := s.heard + [Broken]) {
      if s.server.AwaitingAuth? {
        assert (s.heard + [Broken])[1..] == [Broken];
      }
    }
  }

  lemma ClientReceiveIsConnect(cfg: Config, net: Net, s: System)
    requires ClientIsConnect(cfg, net, s) && Awaiting(s.client) && s.toClient != []
    ensures ClientIsConnect(cfg, net, ClientStep(cfg, net, s))
  {
    if s.client.AwaitingAuthOk? {
      assert (s.told + [Message(s.toClient[0])])[1..] == [Message(s.toClient[0])];
    }
  }

  lemma ClientSendIsConnect(cfg: Config, net: Net, s: System)
    requires ClientIsConnect(cfg, net, s) && (s.client.Idle? || s.client.SendingAuth? || s.client.Binding?)
    ensures ClientIsConnect(cfg, net, ClientStep(cfg, net, s))
  {
    var hello, auth, report := ClientHello(cfg, 1), ClientAuth(cfg, 2), ClientReport(cfg, 3);
    assert [hello, auth] + report[..0] == [hello, auth] && [auth] + [] == [auth];
  }

  lemma ClientReportIsConnect(cfg: Config, net: Net, s: System)
    requires ClientIsConnect(cfg, net, s) && s.client.Reporting?
    ensures ClientIsConnect(cfg, net, ClientStep(cfg, net, s))
  {
    var hello, auth, report := ClientHello(cfg, 1), ClientAuth(cfg, 2), ClientReport(cfg, 3);
    var k := s.client.done;
    assert s.told[1..] == [s.told[1]];
    assert [hello] + ([auth] + report[..k]) == [hello, auth] + report[..k];
    if k < |report| {
      assert report[..k + 1] == report[..k] + [report[k]];
    } else {
      assert report[..k] == report;
    }
  }

  lemma ClientCutIsConnect(cfg: Config, net: Net, s: System)
    requires ClientIsConnect(cfg, net, s) && Awaiting(s.client)
    ensures ClientIsConnect(cfg, net, ClientCut(s))
  {
    if s.client.AwaitingAuthOk? {
      assert (s.told + [Broken])[1..] == [Broken];
    }
  }

  lemma ClientFaultIsConnect(cfg: Config, net: Net, s: System, s': System)
    requires ClientIsConnect(cfg, net, s) && Fault(s, s')
    ensures ClientIsConnect(cfg, net, s')
  {
    if Awaiting(s.client) && s' == ClientCut(s) {
      ClientCutIsConnect(cfg, net, s);
    } else {
      assert s'.client == s.client && s'.told == s.told && s'.said == s.said && s'.media == s.media;
    }
  }

  lemma ClientStepIsConnect(cfg: Config, net: Net, s: System)
    requires ClientIsConnect(cfg, net, s) && ClientCanStep(s)
    ensures ClientIsConnect(cfg, net, ClientStep(cfg, net, s))
  {
    if Awaiting(s.client) {
      ClientReceiveIsConnect(cfg, net, s);
    } else if s.client.Reporting? {
      ClientReportIsConnect(cfg, net, s);
    } else {
      ClientSendIsConnect(cfg, net, s);
    }
  }

  lemma ClientStepFrame(cfg: Config, net: Net, s: System)
    requires ClientCanStep(s)
    ensures var s' := ClientStep(cfg, net, s); s'.server == s.server && s'.heard == s.heard && s'.sent == s.sent
  {
  }

  lemma ServerStepFrame(cfg: Config, net: Net, s: System)
    requires ServerCanStep(s)
    ensures var s' := ServerStep(cfg, net, s);
      s'.client == s.client && s'.told == s.told && s'.said == s.said && s'.media == s.media
  {
  }

  /**
   * In every state of every run, whatever is lost, times out or fails, and whenever: what the desktop
   * has sent and decided is what its accept does with the messages it received and the sends that work.
   */
  lemma {:induction false} ServerStepsAreAccept(cfg: Config, net: Net, run: seq<System>, i: nat)
    requires IsFaultyRun(cfg, net, run) && i < |run|
    ensures ServerIsAccept(cfg, net, run[i])
  {
    if i > 0 {
      ServerStepsAreAccept(cfg, net, run, i - 1);
      var s, s' := run[i - 1], run[i];
      if Fault(s, s') {
        ServerFaultIsAccept(cfg, net, s, s');
      } else if ServerCanStep(s) && s' == ServerStep(cfg, net, s) {
        ServerStepIsAccept(cfg, net, s);
      } else {
        ClientStepFrame(cfg, net, s);
      }
    }
  }

  /** Likewise the phone: it has sent what its connect sends, and has ended only as that ends. */
  lemma {:induction false} ClientStepsAreConnect(cfg: Config, net: Net, run: seq<System>, i: nat)
    requires IsFaultyRun(cfg, net, run) && i < |run|
    ensures ClientIsConnect(cfg, net, run[i])
  {
    if i > 0 {
      ClientStepsAreConnect(cfg, net, run, i - 1);
      var s, s' := run[i - 1], run[i];
      if Fault(s, s') {
        ClientFaultIsConnect(cfg, net, s, s');
      } else if ClientCanStep(s) && s' == ClientStep(cfg, net, s) {
        ClientStepIsConnect(cfg, net, s);
      } else {
        ServerStepFrame(cfg, net, s);
      }
    }
  }

  // ----------------------------------------------------------------- safety

  predicate KnowsId(c: ClientState) { c.Binding? || c.Reporting? || c.Ready? }

  ghost predicate Inv(cfg: Config, s: System) {
    && (forall e :: e in s.toServer && e.body.HelloMsg? ==> e.body.hello.protoVer == cfg.clientVer)
    && (forall e :: e in s.toServer && e.body.AuthMsg? ==> e.body.auth == cfg.auth)
    && (s.server.AwaitingAuth? || s.server.Accepted? ==> cfg.clientVer == PROTO_VER)
    && (s.server.Accepted? ==>
          && Authorises(cfg.kind, cfg.expected, cfg.auth)
          && s.server.session.sessionId == cfg.sid && s.server.session.token == cfg.expected)
    && (forall e :: e in s.toClient && e.body.AuthOk? ==>
          s.server.Accepted? && s.server.session.sessionId == e.body.sessionId)
    && (KnowsId(s.client) ==> s.server.Accepted? && s.server.session.sessionId == s.client.sid)
    && (s.media != [] ==>
          s.server.Accepted? && s.media == [MediaHelloOf(cfg, s.server.session.sessionId)])
  }

  lemma ClientReceiveKeepsInv(cfg: Config, net: Net, s: System)
    requires Inv(cfg, s) && Awaiting(s.client) && s.toClient != []
    ensures Inv(cfg, ClientStep(cfg, net, s))
  {
    assert s.toClient[0] in s.toClient;
    assert forall e :: e in s.toClient[1..] ==> e in s.toClient;
  }

  lemma SayKeepsInv(cfg: Config, net: Net, s: System, e: Envelope, next: ClientState)
    requires Inv(cfg, s)
    requires e.body.HelloMsg? ==> e.body.hello.protoVer == cfg.clientVer
    requires e.body.AuthMsg? ==> e.body.auth == cfg.auth
    requires KnowsId(next) ==> KnowsId(s.client) && next.sid == s.client.sid
    ensures Inv(cfg, Say(net, s, e, next))
  {
  }

  lemma ClientSendKeepsInv(cfg: Config, net: Net, s: System)
    requires Inv(cfg, s) && ClientIsConnect(cfg, net, s) && Sending(s.client)
    ensures Inv(cfg, ClientStep(cfg, net, s))
  {
    match s.client
    case Idle => SayKeepsInv(cfg, net, s, ClientHello(cfg, 1), AwaitingAck);
    case SendingAuth => SayKeepsInv(cfg, net, s, ClientAuth(cfg, 2), AwaitingAuthOk);
    case Binding(sid) =>
    case Reporting(sid, k) =>
      var report := ClientReport(cfg, 3);
      if k < |report| {
        SayKeepsInv(cfg, net, s, report[k], Reporting(sid, k + 1));
      }
  }

  lemma ClientStepKeepsInv(cfg: Config, net: Net, s: System)
    requires Inv(cfg, s) && ClientIsConnect(cfg, net, s) && ClientCanStep(s)
    ensures Inv(cfg, ClientStep(cfg, net, s))
  {
    if Awaiting(s.client) {
      ClientReceiveKeepsInv(cfg, net, s);
    } else {
      ClientSendKeepsInv(cfg, net, s);
    }
  }

  /** A reply that tells the truth about the server's next state keeps the invariant. */
  lemma AnswerKeepsInv(cfg: Config, net: Net, s: System, reply: Envelope, next: ServerState)
    requires Inv(cfg, s) && ServerCanStep(s)
    requires next.AwaitingAuth? || next.Accepted? ==> cfg.clientVer == PROTO_VER
    requires next.Accepted? ==>
      && Authorises(cfg.kind, cfg.expected, cfg.auth)
      && next.session.sessionId == cfg.sid && next.session.token == cfg.expected
    requires reply.body.AuthOk? ==> next.Accepted? && reply.body.sessionId == cfg.sid
    ensures Inv(cfg, Answer(net, s, reply, next))
  {
    assert forall e :: e in s.toServer[1..] ==> e in s.toServer;
  }

  lemma ServerStepKeepsInv(cfg: Config, net: Net, s: System)
    requires Inv(cfg, s) && ServerCanStep(s)
    ensures Inv(cfg, ServerStep(cfg, net, s))
  {
    var m := s.toServer[0];
    assert m in s.toServer;
    match s.server
    case AwaitingHello =>
      match OnHello(m, cfg.serverCaps) {
        case Proceed(ack, hello) => AnswerKeepsInv(cfg, net, s, ack, AwaitingAuth(hello));
        case Reject(reply, error) => AnswerKeepsInv(cfg, net, s, reply, Failed(error));
      }
    case AwaitingAuth(hello) =>
      match OnAuth(cfg.kind, cfg.expected, m, cfg.sid, hello) {
        case Proceed(ok, session) => AnswerKeepsInv(cfg, net, s, ok, Accepted(session));
        case Reject(reply, error) => AnswerKeepsInv(cfg, net, s, reply, Failed(error));
      }
  }

  lemma FaultKeepsInv(cfg: Config, s: System, s': System)
    requires Inv(cfg, s) && Fault(s, s')
    ensures Inv(cfg, s')
  {
    assert forall e :: e in s'.toServer ==> e in s.toServer;
    assert forall e :: e in s'.toClient ==> e in s.toClient;
  }

  lemma {:induction false} FaultyRunKeepsInv(cfg: Config, net: Net, run: seq<System>, i: nat)
    requires IsFaultyRun(cfg, net, run) && i < |run|
    ensures Inv(cfg, run[i])
  {
    if i > 0 {
      FaultyRunKeepsInv(cfg, net, run, i - 1);
      var s, s' := run[i - 1], run[i];
      if Fault(s, s') {
        FaultKeepsInv(cfg, s, s');
      } else if ClientCanStep(s) && s' == ClientStep(cfg, net, s) {
        ClientStepsAreConnect(cfg, net, run, i - 1);
        ClientStepKeepsInv(cfg, net, s);
      } else {
        ServerStepKeepsInv(cfg, net, s);
      }
    }
  }

  /**
   * In every run, with any losses, timeouts and failed sends: a MEDIA_HELLO on the wire, even of a phone
   * that never becomes ready, presents exactly the pair the desktop accepted and waits for.
   */
  lemma MediaHelloMeansAccepted(cfg: Config, net: Net, run: seq<System>, i: nat)
    requires IsFaultyRun(cfg, net, run) && i < |run| && run[i].media != []
    ensures run[i].server.Accepted?
    ensures var a := run[i].server.session;
      && a.sessionId == cfg.sid && a.token == cfg.expected
      && Matches(cfg) && run[i].media == [Envelope(0, None, MediaHello(a.sessionId, a.token))]
  {
    FaultyRunKeepsInv(cfg, net, run, i);
  }

  /** And a phone that reports ready was accepted under that very id and has sent that MEDIA_HELLO. */
  lemma ReadyMeansAccepted(cfg: Config, net: Net, run: seq<System>, i: nat)
    requires IsFaultyRun(cfg, net, run) && i < |run| && run[i].client.Ready?
    ensures run[i].server.Accepted?
    ensures var a := run[i].server.session;
      && run[i].client.sid == a.sessionId == cfg.sid
      && Matches(cfg) && run[i].media == [Envelope(0, None, MediaHello(a.sessionId, a.token))]
  {
    FaultyRunKeepsInv(cfg, net, run, i);
    ClientStepsAreConnect(cfg, net, run, i);
    ConnectIff(cfg, 0, run[i].told, net.clientSends, net.mediaSends);
  }

  lemma RunSnoc(cfg: Config, net: Net, run: seq<System>, s: System)
    requires IsFaultyRun(cfg, net, run) && Works(cfg, net, run[|run| - 1], s)
    ensures IsFaultyRun(cfg, net, run + [s])
  {
  }

  /** A phone of version 1 up to its AUTH. */
  lemma RunToAuth(cfg: Config, net: Net) returns (run: seq<System>, s: System)
    requires cfg.clientVer == 1 && net.serverSends >= 2 && net.clientSends >= 2
    ensures IsFaultyRun(cfg, net, run) && s == run[|run| - 1]
    ensures s.client.AwaitingAuthOk? && s.server.AwaitingAuth? && s.media == []
    ensures s.toServer == [ClientAuth(cfg, 2)] && s.toClient == [] && |s.said| == 2 && |s.sent| == 1
  {
    run, s := [START], ClientStep(cfg, net, START);
    RunSnoc(cfg, net, run, s);
    run, s := run + [s], ServerStep(cfg, net, s);
    RunSnoc(cfg, net, run, s);
    run, s := run + [s], ClientStep(cfg, net, s);
    RunSnoc(cfg, net, run, s);
    run, s := run + [s], ClientStep(cfg, net, s);
    RunSnoc(cfg, net, run, s);
    run := run + [s];
  }

  /** A matching phone up to the end of its handshake, however many reports it can send afterwards. */
  lemma RunToBinding(cfg: Config, net: Net) returns (run: seq<System>, s: System)
    requires Matches(cfg) && net.serverSends >= 2 && net.clientSends >= 2
    ensures IsFaultyRun(cfg, net, run) && s == run[|run| - 1] && s.client == Binding(cfg.sid)
    ensures s.server.Accepted? && s.media == [] && |s.said| == 2
  {
    run, s := RunToAuth(cfg, net);
    s := ServerStep(cfg, net, s);
    RunSnoc(cfg, net, run, s);
    run, s := run + [s], ClientStep(cfg, net, s);
    RunSnoc(cfg, net, run, s);
    run := run + [s];
  }

  /** A phone whose report fails has sent MEDIA_HELLO and never becomes ready. */
  lemma StrandedPhone(cfg: Config) returns (run: seq<System>)
    requires Matches(cfg)
    ensures IsFaultyRun(cfg, Net(2, 2, 1), run)
    ensures var s := run[|run| - 1];
      s.client.Abandoned? && s.server.Accepted? && s.media == [MediaHelloOf(cfg, cfg.sid)]
  {
    var net, s := Net(2, 2, 1), START;
    run, s := RunToBinding(cfg, net);
    var bound := ClientStep(cfg, net, s);
    RunSnoc(cfg, net, run, bound);
    var stranded := ClientStep(cfg, net, bound);
    RunSnoc(cfg, net, run + [bound], stranded);
    run := run + [bound] + [stranded];
  }

  // ------------------------------------------------------ fault-free outcome

  /** Enough sends for the longest handshake. */
  predicate Sound(net: Net) { net.serverSends >= 2 && net.clientSends >= 4 && net.mediaSends >= 1 }

  ghost predicate IsRun(cfg: Config, net: Net, run: seq<System>) {
    && run != [] && run[0] == START
    && forall i :: 0 < i < |run| ==> Works(cfg, net, run[i - 1], run[i])
  }

  predicate Quiet(s: System) { !ClientCanStep(s) && !ServerCanStep(s) }

  function ClientRank(c: ClientState): nat {
    match c
    case Idle => 0
    case AwaitingAck => 1
    case SendingAuth => 2
    case AwaitingAuthOk => 3
    case Binding(_) => 4
    case Reporting(_, k) => 5 + Min(k, 2)
    case _ => 8
  }

  function ServerRank(v: ServerState): nat {
    match v case AwaitingHello => 0 case AwaitingAuth(_) => 1 case _ => 2
  }

  function Rank(s: System): (r: nat)
    ensures r <= 10
  {
    ClientRank(s.client) + ServerRank(s.server)
  }

  lemma ClientClimbs(cfg: Config, net: Net, s: System)
    requires ClientCanStep(s) && ClientIsConnect(cfg, net, s)
    ensures ClientRank(ClientStep(cfg, net, s).client) > ClientRank(s.client)
  {
    assert |ClientReport(cfg, 3)| <= 2;
  }

  lemma ServerClimbs(cfg: Config, net: Net, s: System)
    requires ServerCanStep(s)
    ensures ServerRank(ServerStep(cfg, net, s).server) > ServerRank(s.server)
  {
  }

  lemma StepClimbs(cfg: Config, net: Net, s: System, s': System)
    requires Works(cfg, net, s, s') && ClientIsConnect(cfg, net, s)
    ensures Rank(s') > Rank(s)
  {
    if ClientCanStep(s) && s' == ClientStep(cfg, net, s) {
      ClientClimbs(cfg, net, s);
      ClientStepFrame(cfg, net, s);
    } else {
      ServerClimbs(cfg, net, s);
      ServerStepFrame(cfg, net, s);
    }
  }

  lemma RunIsFaultyRun(cfg: Config, net: Net, run: seq<System>)
    requires IsRun(cfg, net, run)
    ensures IsFaultyRun(cfg, net, run)
  {
  }

  /** Without losses and timeouts every run ends, after ten steps at most, however many sends fail. */
  lemma {:induction false} RunsAreShort(cfg: Config, net: Net, run: seq<System>, i: nat)
    requires IsRun(cfg, net, run) && i < |run|
    ensures i <= Rank(run[i]) <= 10
  {
    if i > 0 {
      RunsAreShort(cfg, net, run, i - 1);
      RunIsFaultyRun(cfg, net, run);
      ClientStepsAreConnect(cfg, net, run, i - 1);
      StepClimbs(cfg, net, run[i - 1], run[i]);
    }
  }

  /** Whose message the server refuses, if any. */
  function OffendingSeq(cfg: Config): u64 { if cfg.clientVer != PROTO_VER then 1 else 2 }

  predicate Greeted(sent: seq<Envelope>) { |sent| == 1 && !IsError(sent[0]) && sent[0].seqNo == 0 }

  predicate Welcomed(sent: seq<Envelope>) {
    |sent| == 2 && Greeted(sent[..1]) && !IsError(sent[1]) && sent[1].seqNo == 1
  }

  /** Exactly one ERROR, last, acknowledging the offending message. */
  predicate Refused(cfg: Config, sent: seq<Envelope>) {
    && sent != [] && IsError(sent[|sent| - 1]) && sent[|sent| - 1].ack == Some(OffendingSeq(cfg))
    && forall k :: 0 <= k < |sent| - 1 ==> !IsError(sent[k])
  }

  predicate BothReady(cfg: Config, s: System) {
    && s.client == Ready(cfg.sid) && s.server.Accepted? && s.server.session.sessionId == cfg.sid
    && Welcomed(s.sent)
  }

  predicate BothFailed(cfg: Config, s: System) { s.client.Stopped? && s.server.Failed? && Refused(cfg, s.sent) }

  /** While the phone waits for HELLO_ACK. */
  predicate Greeting(cfg: Config, s: System) {
    || (s.server.AwaitingHello? && s.toServer == [ClientHello(cfg, 1)] && s.toClient == [] && s.sent == [])
    || (&& cfg.clientVer == PROTO_VER && s.server.AwaitingAuth? && s.toServer == [] && Greeted(s.sent)
        && s.toClient == s.sent && s.toClient[0].body.HelloAck?)
    || (&& cfg.clientVer != PROTO_VER && s.server.Failed? && s.toServer == [] && |s.toClient| == 1
        && s.toClient == s.sent && Refused(cfg, s.sent))
  }

  /** While the phone waits for AUTH_OK. */
  predicate Authenticating(cfg: Config, s: System) {
    && cfg.clientVer == PROTO_VER
    && (|| (s.server.AwaitingAuth? && s.toServer == [ClientAuth(cfg, 2)] && s.toClient == [] && Greeted(s.sent))
        || (&& Matches(cfg) && s.server.Accepted? && s.server.session.sessionId == cfg.sid && s.toServer == []
            && |s.toClient| == 1 && s.toClient[0].body == AuthOk(cfg.sid) && Welcomed(s.sent))
        || (&& !Matches(cfg) && s.server.Failed? && s.toServer == []
            && |s.toClient| == 1 && IsError(s.toClient[0]) && Refused(cfg, s.sent)))
  }

  /** Every state a fault-free run can be in. */
  predicate Phase(cfg: Config, s: System) {
    match s.client
    case Idle => s == START
    case AwaitingAck => Greeting(cfg, s)
    case SendingAuth =>
      && cfg.clientVer == PROTO_VER && s.server.AwaitingAuth?
      && s.toServer == [] && s.toClient == [] && Greeted(s.sent)
    case AwaitingAuthOk => Authenticating(cfg, s)
    case Binding(_) => Admits(cfg, s)
    case Reporting(_, _) => Admits(cfg, s)
    case Ready(_) => Admits(cfg, s)
    case Stopped => !Matches(cfg) && s.toServer == [] && s.server.Failed? && Refused(cfg, s.sent)
    case Abandoned => false
  }

  predicate Admits(cfg: Config, s: System) {
    && KnowsId(s.client) && s.client.sid == cfg.sid && Matches(cfg)
    && s.server.Accepted? && s.server.session.sessionId == cfg.sid && Welcomed(s.sent)
  }

  lemma HelloKeepsPhase(cfg: Config, net: Net, s: System)
    requires Sound(net) && s.client.AwaitingAck? && Greeting(cfg, s) && ServerCanStep(s)
    ensures Greeting(cfg, ServerStep(cfg, net, s))
  {
  }

  lemma AuthKeepsPhase(cfg: Config, net: Net, s: System)
    requires Sound(net) && s.client.AwaitingAuthOk? && Authenticating(cfg, s) && ServerCanStep(s)
    ensures Authenticating(cfg, ServerStep(cfg, net, s))
  {
    var s' := ServerStep(cfg, net, s);
    var verdict := OnAuth(cfg.kind, cfg.expected, ClientAuth(cfg, 2), cfg.sid, s.server.hello);
    assert s'.sent == s.sent + [verdict.reply] && s'.toClient == [verdict.reply] && s'.toServer == [];
    assert s'.sent[..1] == s.sent;
    assert verdict.Proceed? <==> Matches(cfg);
  }

  lemma ServerKeepsPhase(cfg: Config, net: Net, s: System)
    requires Sound(net) && Phase(cfg, s) && ServerCanStep(s)
    ensures Phase(cfg, ServerStep(cfg, net, s))
  {
    ServerStepFrame(cfg, net, s);
    if s.client.AwaitingAck? {
      HelloKeepsPhase(cfg, net, s);
    } else if s.client.AwaitingAuthOk? {
      AuthKeepsPhase(cfg, net, s);
    }
  }

  lemma ClientKeepsPhase(cfg: Config, net: Net, s: System)
    requires Sound(net) && ClientIsConnect(cfg, net, s) && Phase(cfg, s) && ClientCanStep(s)
    ensures Phase(cfg, ClientStep(cfg, net, s))
  {
  }

  lemma {:induction false} RunKeepsPhase(cfg: Config, net: Net, run: seq<System>, i: nat)
    requires Sound(net) && IsRun(cfg, net, run) && i < |run|
    ensures Phase(cfg, run[i])
  {
    if i > 0 {
      RunKeepsPhase(cfg, net, run, i - 1);
      RunIsFaultyRun(cfg, net, run);
      ClientStepsAreConnect(cfg, net, run, i - 1);
      var s := run[i - 1];
      if ClientCanStep(s) && run[i] == ClientStep(cfg, net, s) {
        ClientKeepsPhase(cfg, net, s);
      } else {
        ServerKeepsPhase(cfg, net, s);
      }
    }
  }

  lemma OneAtATime(cfg: Config, s: System)
    requires Phase(cfg, s)
    ensures !(ClientCanStep(s) && ServerCanStep(s))
  {
  }

  /** The two ends take turns, so that all runs go through the same states. */
  lemma {:induction false} RunIsDetermined(cfg: Config, net: Net, run: seq<System>, run': seq<System>, i: nat)
    requires Sound(net) && IsRun(cfg, net, run) && IsRun(cfg, net, run') && i < |run| && i < |run'|
    ensures run[i] == run'[i]
  {
    if i > 0 {
      RunIsDetermined(cfg, net, run, run', i - 1);
      RunKeepsPhase(cfg, net, run, i - 1);
      OneAtATime(cfg, run[i - 1]);
      assert Works(cfg, net, run[i - 1], run[i]) && Works(cfg, net, run'[i - 1], run'[i]);
    }
  }

  /**
   * With no loss, timeout or failed send every run has at most ten steps, and a run that can go no
   * further has both ends ready on one id exactly when version and credential match; otherwise both
   * have failed over exactly one ERROR, which acknowledges the offending message.
   */
  lemma FaultFreeOutcome(cfg: Config, net: Net, run: seq<System>)
    requires Sound(net) && IsRun(cfg, net, run)
    ensures |run| <= 11
    ensures var s := run[|run| - 1];
      Quiet(s) ==>
        if && cfg.clientVer == 1
           && (|| (cfg.kind == Wifi && cfg.auth == Token(cfg.expected))
               || (cfg.kind == Usb && cfg.auth == PairingKey(cfg.expected)))
        then BothReady(cfg, s) else BothFailed(cfg, s)
  {
    RunsAreShort(cfg, net, run, |run| - 1);
    RunKeepsPhase(cfg, net, run, |run| - 1);
  }
}
