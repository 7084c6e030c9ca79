/** Control-plane messages. Fields no modelled rule reads are omitted. */
module Protocol {
  import opened Common
  import opened Tables

  const PROTO_VER: u32 := 1

  datatype Capability = CapHevc | CapH264 | CapRawNv12 | CapUsb3 | CapSpeedtestV1 | CapOther(name: string)

  datatype Auth = Token(token: string) | PairingKey(pairingKey: string)

  datatype ErrorCode =
    | IncompatibleVersion | Unauthorized | BadRequest
    | UnsupportedMode | CameraUnavailable | Internal | Timeout

  datatype Hello = Hello(protoVer: u32, app: string, model: string, sessionId: string, caps: seq<Capability>)

  datatype DeviceInfo = DeviceInfo(model: string, osVer: string, usb3Capable: bool)

  datatype Telemetry = Telemetry(tsUsec: u64, queueDepth: u32, dropCount: u64)

  datatype ControlMessage =
    | HelloMsg(hello: Hello)
    | HelloAck(protoVer: u32, caps: seq<Capability>)
    | AuthMsg(auth: Auth)
    | AuthOk(sessionId: string)
    | MediaHello(mediaSession: string, mediaToken: string)
    | Bye(reason: string)
    | ErrorMsg(code: ErrorCode, message: string)
    | DeviceInfoMsg(info: DeviceInfo)
    | CameraList(cameras: seq<string>)
    | SetCamera(cameraId: string)
    | SetMode(mode: Mode)
    | ModeApplied(applied: Mode)
    | TelemetryMsg(telemetry: Telemetry)
    | Ping(tsUsec: u64)
    | Pong(pongUsec: u64, echoUsec: u64)
    /** CAMERA_STATE, START, STOP and the SPEEDTEST messages. */
    | OtherMsg(tag: string)

  datatype Envelope = Envelope(seqNo: u64, ack: Option<u64>, body: ControlMessage)
}
