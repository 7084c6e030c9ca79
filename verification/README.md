# ClearCam protocol and adaptation model

ClearCam streams a phone's camera to a desktop: the phone connects over Wi-Fi or USB, both ends shake
hands on a control channel, a second socket carries frames, and the desktop adapts the stream mode to the
link. This project models that logic in Dafny and proves how it behaves over all inputs and all runs.
`dafny verify dfyconfig.toml` checks everything.

| module | what it models |
|---|---|
| `Common`, `Tables`, `Protocol` | integer widths, stream modes, bitrate tables, control messages |
| `Adaptation` | the live controller: congestion, two cooldowns, the stability counter, the mode ladder, the driver |
| `Handshake` | the desktop's accept, the phone's connect, and their joint runs with and without faults |
| `AcceptLoop` | the pending table that matches media sockets to sessions, and the shared outbound slot |
| `ControlPlane`, `Keepalive` | the actor that runs an accepted session; its timed behaviour towards a silent or slow peer |
| `ModeControl` | from the controller's steps to the SET_MODEs on the wire |
| `Wire`, `MediaSocket` | framing, the 28-byte media header in its Rust and Swift forms, the media socket |
| `Nv12` | from strided capture planes to preview pixels |
| `Pipeline`, `Speedtest` | the media pump, speedtest markers, the ramp and its evaluation |
| `Video` | the phone's numbered pictures, from capture callback to sink |
| `SelectMode` | choosing the best mode a measured link carries |
| `UsbDiff` | hot-plug events from successive device listings |
| `Listener` | the phone's three-queue matcher |
| `Base64` | the token encoding of section 5 of RFC 4648, without padding |

Objects the source updates in place are classes, and loops it writes are loops. Each method's contract ties
its result and new state to a function of the inputs and the old state; the theorems about all runs are
lemmas about those functions. A run is a sequence of inputs; properties that hold for a class of inputs say
so in their preconditions, and where a plausible property fails, a concrete input and the exact condition
are both given.

Conventions: clock readings are whole milliseconds, floating-point quantities are reals, sockets are byte
sequences, channels are message sequences, and 32- and 64-bit wrap-around, saturation and casts are written
out. Every choice of the environment (what arrives, which sends fail, what a timer reads) is an input.

Where the design notes and the code disagree the code is followed: the notes give cooldowns of 5 s down and
8 s up (docs/06-adaptive-engine-and-speedtest.md:109-112), the code uses 2 s and 5 s.

## Model

| member | source | states |
|---|---|---|
| `Adaptation.AdaptationState.Observe` | desktop/crates/adaptive/src/adaptation.rs:54-88 | one sample changes the five fields and returns the action exactly as the pure step function says: congested within 2 s of the last action changes nothing, congested later steps down, four uncongested samples and 5 s allow a step up |
| `Adaptation.AdaptationState.CooledDown` | desktop/crates/adaptive/src/adaptation.rs:90-93 | elapsed time is counted from the last action, or from the start if there was none, and an earlier clock reading counts as zero |
| `Adaptation.AdaptationDriver.Observe` | desktop/crates/app/src/adaptation_driver.rs:42-54 | the outbound queue grows by exactly one SET_MODE per step and by nothing otherwise |
| `Adaptation.AdaptationDriver.ObserveAll` | desktop/crates/app/src/lib.rs:549-558 | draining the telemetry queue leaves the controller where the run does and sends exactly the steps of the run, in order |
| `Adaptation.ActionsPayTheirCooldown` | desktop/crates/adaptive/src/adaptation.rs:54-93 | over every run and any clock readings, 2 s per step-down plus 5 s per step-up fit between the first and the last reference time |
| `Adaptation.BudgetFromStart` | desktop/crates/adaptive/src/adaptation.rs:42-93 | the same budget counted from the start of a fresh controller to its last action |
| `Adaptation.ActionsAreSpaced` | desktop/crates/adaptive/src/adaptation.rs:54-93 | any two actions of a run are at least 2 s apart, 5 s if the later one is a step-up, and at least the sum of all cooldowns in between |
| `Adaptation.StableCountsHistory` | desktop/crates/adaptive/src/adaptation.rs:54-88 | the stability counter equals the saturated number of uncongested samples since the last reset, resets being any action or a congested sample outside the cooldown |
| `Adaptation.StepUpIsEarned` | desktop/crates/adaptive/src/adaptation.rs:77-86 | every step-up follows at least four uncongested samples since that reset and 5 s since the last action |
| `Adaptation.CongestionInCooldownIsInvisible` | desktop/crates/adaptive/src/adaptation.rs:57-60 | a congested sample leaves the controller unchanged exactly when it falls in the 2 s cooldown or finds the ladder exhausted with nothing to reset |
| `Adaptation.DropIsRemembered` | desktop/crates/adaptive/src/adaptation.rs:54-106 | with a cumulative drop count that never decreases, a drop first seen inside the cooldown allows no action until the first sample past it, which steps down if a rung is left |
| `Adaptation.BaselineBounded` | desktop/crates/adaptive/src/adaptation.rs:69-74 | over every run the RTT baseline is unset or within the range of the uncongested round trips it averaged |
| `Adaptation.BaselineGrowsSlowly` | desktop/crates/adaptive/src/adaptation.rs:69-106 | a positive baseline grows by at most a factor 1.2 per sample, because larger round trips are congestion |
| `Adaptation.BaselineMoves` | desktop/crates/adaptive/src/adaptation.rs:69-74 | a congested sample leaves the baseline, the first other one sets it, and every later one moves it a fifth of the way to its round trip |
| `Adaptation.DropCountIsLastHeeded` | desktop/crates/adaptive/src/adaptation.rs:54-88 | over every run the remembered drop count is that of the latest sample that was not congested inside the cooldown |
| `Adaptation.StepsDownIff` | desktop/crates/adaptive/src/adaptation.rs:54-106 | a sample steps down exactly when it shows backlog, a new drop or a round trip above twice a positive baseline, two seconds have passed since the last action, and a rung is left |
| `Adaptation.CalmStep` | desktop/crates/adaptive/src/adaptation.rs:68-106 | a sample without backlog, new drop or doubled round trip steps up exactly when it is at least the fourth counted, five seconds have passed and a rung is left; otherwise it is only counted |
| `Adaptation.CalmNeverStepsDown` | desktop/crates/adaptive/src/adaptation.rs:54-106 | no run of such samples ever steps down, whatever the clock |
| `Adaptation.CalmClimbs` | desktop/crates/adaptive/src/adaptation.rs:54-106 | after a reset the first calm sample that is at least the fourth and comes five seconds after the last action steps up while a rung is left, and none before it does anything |
| `Adaptation.CalmFromDefault` | desktop/crates/adaptive/src/adaptation.rs:54-165 | from the default mode, calm samples five seconds apart send exactly 1080p60 at 50000 kbit/s with the fourth and 4K60 at 194400 with the eighth |
| `Adaptation.RungAbove` | desktop/crates/adaptive/src/adaptation.rs:145-165 | on the default ladder the frame rate rises before the size, each time to the table target |
| `Adaptation.RungBelow` | desktop/crates/adaptive/src/adaptation.rs:108-142 | on the default ladder the frame rate falls first, then the bitrate by quarters down to 1000 kbit/s, then the size |
| `Adaptation.LowerDescends` | desktop/crates/adaptive/src/adaptation.rs:111-143 | every step down is strictly lower in the lexicographic order raw, resolution, frame rate, bitrate, for all modes and with the 32-bit product |
| `Adaptation.Ladder` | desktop/crates/adaptive/src/adaptation.rs:111-143 | repeated step-downs from any mode visit a finite chain that ends where no lower mode exists |
| `Adaptation.BottomIff` | desktop/crates/adaptive/src/adaptation.rs:111-166 | exactly which modes have no lower and no higher neighbour; each step up uses one of at most three upward rungs |
| `Adaptation.StepDownCanRaiseBitrate` | desktop/crates/adaptive/src/adaptation.rs:136-140 | a concrete mode whose step-down raises the bitrate from 949 to 12000 kbit/s |
| `Adaptation.StepDownRaisesBitrateIff` | desktop/crates/adaptive/src/adaptation.rs:111-143 | exactly which modes step down to a higher bitrate: an encoded one above 30 fps, a raw one, or a bottomed-out one with a smaller canonical size, whose table target there exceeds its bitrate |
| `Adaptation.LadderRaisesBitrateIff` | desktop/crates/adaptive/src/adaptation.rs:111-143 | from the default mode a step-down raises the bitrate exactly at 1000 kbit/s or less |
| `Adaptation.OnLadderClosed` | desktop/crates/adaptive/src/adaptation.rs:111-166 | the modes of the default ladder are closed under stepping down and up, and only 720p30 at 900 kbit/s has no lower mode |
| `Adaptation.OnLadderFloor` | desktop/crates/adaptive/src/adaptation.rs:111-143 | from every such mode repeated step-downs end at 720p30 HEVC at 900 kbit/s |
| `Adaptation.ReachableFromDefault` | desktop/crates/adaptive/src/adaptation.rs:54-166 | whatever the samples, a run from the default mode is always HEVC at 720p, 1080p or 4K, 30 or 60 fps, at most at its table target and exactly at it for 60 fps, above one common floor; so is every mode sent |
| `Adaptation.LadderNeverOverflows` | desktop/crates/adaptive/src/adaptation.rs:116-127 | if the first bitrate can be tripled in 32 bits, every later one can |
| `Adaptation.MultiplySafeLower` | desktop/crates/adaptive/src/adaptation.rs:116-127 | one step-down keeps that, and then the wrapping product is the exact one |
| `Adaptation.RungAccounting` | desktop/crates/adaptive/src/adaptation.rs:54-166 | without a step-down at most three step-ups occur and each uses one upward rung; without a step-up each step-down uses one rung of the ladder |
| `Adaptation.PersistentCongestion` | desktop/crates/adaptive/src/adaptation.rs:54-143 | unrelenting backlog sampled at least every 2 s walks the ladder one rung per sample and stays at the floor |
| `Adaptation.LastSentIsCurrent` | desktop/crates/app/src/adaptation_driver.rs:42-54 | the last mode sent is the mode the controller is in |
| `Tables.TargetsBelowRaw` | desktop/crates/adaptive/src/tables.rs:5-31 | for all dimensions and frame rates HEVC costs at most H.264 and H.264 at most raw |
| `Tables.RawRateIs` | desktop/crates/adaptive/src/tables.rs:5-9 | raw NV12 costs twelve bits a pixel, truncated to kilobits, for every picture with an even number of pixels |
| `Tables.DocumentedRates` | desktop/crates/adaptive/src/tables.rs:5-31 | the documented raw, HEVC and H.264 rates |
| `Tables.NoIntermediateOverflow` | desktop/crates/adaptive/src/tables.rs:5-31 | for 16-bit arguments no 64-bit intermediate product wraps |
| `Handshake.AcceptControl` | desktop/crates/session/src/handshake.rs:30-235 | the Wi-Fi and USB accepts, statement by statement: result and bytes sent equal the reference function of everything the peer sends and of how many sends succeed |
| `Handshake.AcceptIff` | desktop/crates/session/src/handshake.rs:30-235 | against any peer the server accepts exactly a HELLO of version 1 followed by an AUTH with the expected token over Wi-Fi or the expected pairing key over USB, both replies delivered; it accepts that HELLO and credential under the fresh id |
| `Handshake.AcceptReplies` | desktop/crates/session/src/handshake.rs:65-110 | an accepted peer is told version 1, exactly the capabilities both ends list, and its session id, each reply acknowledging its message |
| `Handshake.RefusalTells` | desktop/crates/session/src/handshake.rs:35-100 | which error code is sent and which error returned for a first message that is no HELLO, another version, a second message that is no AUTH, and a wrong credential |
| `Handshake.SilenceTells` | desktop/crates/session/src/handshake.rs:35-100 | a silent peer is a timeout and a broken connection a transport error, and neither is sent an ERROR |
| `Handshake.OneErrorLast` | desktop/crates/session/src/handshake.rs:237-253 | at most one ERROR is sent, last, acknowledging the message that provoked it, and only by a failed accept |
| `Handshake.Agreed` | desktop/crates/session/src/handshake.rs:65-69 | a capability is acknowledged exactly when both ends list it |
| `Handshake.SessionController.Connect` | ios/Sources/ClearCamCore/Session/SessionController.swift:134-212 | the phone ends in the state, result and messages of the reference function, which leaves it handshaking after a failed send and stopped after a refusal |
| `Handshake.SessionController.Greet` | ios/Sources/ClearCamCore/Session/SessionController.swift:139-174 | HELLO and its answer: HELLO_ACK alone lets the connect go on, a refusal or a failed receive stops it, a failed send leaves it handshaking |
| `Handshake.SessionController.Authenticate` | ios/Sources/ClearCamCore/Session/SessionController.swift:176-212 | the part of the connect from AUTH on: AUTH_OK alone leads to ready, after MEDIA_HELLO on the media channel and DEVICE_INFO, CAMERA_LIST on the control channel |
| `Handshake.SessionController.Report` | ios/Sources/ClearCamCore/Session/SessionController.swift:199-207 | DEVICE_INFO and, with cameras, CAMERA_LIST are sent in order, up to the first send that fails |
| `Handshake.ConnectIff` | ios/Sources/ClearCamCore/Session/SessionController.swift:134-212 | against any peer and with any number of sends succeeding: exactly when MEDIA_HELLO is sent, that it names the granted id, and exactly when the phone becomes ready; in between a failure leaves it handshaking |
| `Handshake.ReadyPhoneSaid` | ios/Sources/ClearCamCore/Session/SessionController.swift:134-212 | all a ready phone has said, in order and consecutively numbered: HELLO, AUTH, DEVICE_INFO and, if it has cameras, CAMERA_LIST, with their contents |
| `Handshake.RefusedPhone` | ios/Sources/ClearCamCore/Session/SessionController.swift:159-190 | a refusal of HELLO or AUTH stops the phone with the words of the ERROR |
| `Handshake.ServerStepsAreAccept` | desktop/crates/session/src/handshake.rs:30-235 | in every state of every joint run, with any loss, timeout, broken receive or failed send, the desktop has sent and decided what its accept does with the messages it received and the sends that work |
| `Handshake.ClientStepsAreConnect` | ios/Sources/ClearCamCore/Session/SessionController.swift:134-212 | likewise the phone, one step per send and per receive: it has sent on both channels what its connect sends, and has become ready, stopped or thrown only as that does |
| `Handshake.FaultyRunKeepsInv` | desktop/crates/session/src/handshake.rs:30-235 | the joint invariant holds in every state of those runs: only matching messages travel to the desktop, and AUTH_OK, a known id and MEDIA_HELLO all name the accepted session |
| `Handshake.MediaHelloMeansAccepted` | ios/Sources/ClearCamCore/Session/SessionController.swift:193-197 | in all those runs a MEDIA_HELLO on the wire, even of a phone that never becomes ready, presents exactly the pair the desktop accepted and waits for |
| `Handshake.StrandedPhone` | ios/Sources/ClearCamCore/Session/SessionController.swift:193-209 | a run in which the report fails after MEDIA_HELLO: the phone is left handshaking, the desktop has accepted |
| `Handshake.ReadyMeansAccepted` | ios/Sources/ClearCamCore/Session/SessionController.swift:134-212 | in all those runs a phone that reports ready was accepted under that very id with matching version and credential, and presents exactly the pair the desktop waits for |
| `Handshake.RunsAreShort` | desktop/crates/session/src/handshake.rs:30-235 | without losses and timeouts every run has at most ten steps, however many sends fail |
| `Handshake.RunIsDetermined` | desktop/crates/session/src/handshake.rs:30-235 | without faults the two ends take turns: any two runs go through the same states |
| `Handshake.FaultFreeOutcome` | desktop/crates/session/src/handshake.rs:30-235 | without faults every run has at most ten steps and ends with both ends ready on one id exactly when the version is 1 and the credential is the expected token over Wi-Fi or the expected pairing key over USB; otherwise both fail over exactly one ERROR acknowledging the offending message |
| `AcceptLoop.WifiLoop.OnControl` | desktop/crates/app/src/lib.rs:506-586 | an accepted control connection adds its pair to the pending table and fills the outbound slot; a failed handshake changes nothing |
| `AcceptLoop.WifiLoop.OnMedia` | desktop/crates/app/src/lib.rs:588-598 | a media connection whose hello names a pending pair removes the pair and starts that session on the bytes after the hello; any other changes nothing |
| `AcceptLoop.WifiLoop.OnSessionEnd` | desktop/crates/app/src/lib.rs:563-575 | the end of any session clears the shared outbound slot |
| `AcceptLoop.RunIsSound` | desktop/crates/app/src/lib.rs:499-602 | over every sequence of arrivals each delivered stream presented an accepted pair and went to the session accepted under it, and no session gets two streams |
| `AcceptLoop.RunPartitions` | desktop/crates/app/src/lib.rs:499-602 | pending and delivered pairs together are exactly the accepted ones, even if ids repeat |
| `AcceptLoop.FreshMeansDistinct` | desktop/crates/app/src/lib.rs:499-602 | with fresh ids no pair is accepted twice |
| `AcceptLoop.WaitingOrDelivered` | desktop/crates/app/src/lib.rs:499-602 | with fresh ids pending and delivered pairs are disjoint and each pair is delivered at most once |
| `AcceptLoop.PairedIff` | desktop/crates/app/src/lib.rs:588-598 | a media socket is paired exactly when it presents an accepted pair no earlier one presented; otherwise the state is unchanged |
| `AcceptLoop.HelloWasAccepted` | desktop/crates/app/src/lib.rs:506-521 | the loop accepts the control connection of every phone that got as far as its MEDIA_HELLO, whatever its handshake went through, under the pair that hello presents |
| `AcceptLoop.PhoneIsPaired` | desktop/crates/app/src/lib.rs:499-602 | end to end: let the loop handle anything, then that connection, then anything but a socket presenting the same pair; the phone's hello then starts the pipeline of the session its connection was accepted as, on exactly the records that follow |
| `AcceptLoop.SlotIsLatest` | desktop/crates/app/src/lib.rs:560-575 | a filled outbound slot leads to a running session, the one accepted last |
| `AcceptLoop.SlotIsHonestIff` | desktop/crates/app/src/lib.rs:560-575 | the slot tells at every moment whether a session runs exactly when no session ends while another one runs |
| `AcceptLoop.SlotCanLie` | desktop/crates/app/src/lib.rs:573-574 | two phones connect, the first leaves: the second runs on with an empty slot |
| `ControlPlane.Actor.Turn` | desktop/crates/session/src/controlplane.rs:113-209 | one turn of the select loop does to the counter, receive time, snapshot, wire and events exactly what the step function says |
| `ControlPlane.Actor.OnMessage` | desktop/crates/session/src/controlplane.rs:150-208 | the effect of each message type on the snapshot, the event stream and the wire |
| `ControlPlane.Actor.RunLoop` | desktop/crates/session/src/controlplane.rs:108-212 | the loop handles inputs until the session is over and nothing after that |
| `ControlPlane.NumbersIncrease` | desktop/crates/session/src/controlplane.rs:108-160 | before the 64-bit counter wraps, envelope numbers strictly increase from 101, whatever interleaves and whichever sends fail |
| `ControlPlane.ExactNumbers` | desktop/crates/session/src/controlplane.rs:108-160 | with no failed send the k-th envelope carries 101 + k modulo 2^64 |
| `ControlPlane.SessionIncreasesIff` | desktop/crates/session/src/controlplane.rs:108-160 | a whole session, the handshake replies 0 and 1 included, is strictly increasing exactly while at most 2^64 - 101 envelopes follow |
| `ControlPlane.OrderIsKept` | desktop/crates/session/src/controlplane.rs:115-161 | for every interleaving commands (a queued PING, which nothing tells from a keepalive, aside) leave in queue order, none lost or doubled, and the replies answer the received PINGs one for one with their number and time stamp |
| `ControlPlane.WireIsTranscript` | desktop/crates/session/src/controlplane.rs:113-161 | the whole wire in order: every command as queued, a PING with the clock of every tick, and for every received PING a PONG acknowledging its number and echoing its time; nothing else is sent |
| `ControlPlane.SnapshotMirrors` | desktop/crates/session/src/controlplane.rs:141-186 | the snapshot is the last DEVICE_INFO with the cameras of the last CAMERA_LIST since it and the last TELEMETRY, and the receive time is that of the last message |
| `ControlPlane.OneFinalState` | desktop/crates/session/src/controlplane.rs:99-233 | a session is over exactly when its last input ended it; it announces exactly one terminal state, RECONNECTING, or for a BYE CLOSED and one closing event with the reason, and before that shows READY and announces neither |
| `ControlPlane.EventsTellAll` | desktop/crates/session/src/controlplane.rs:163-233 | after every run a listener that only folds the events knows exactly the snapshot, and has seen each confirmed mode once, in order |
| `ControlPlane.LastOf` | desktop/crates/session/src/controlplane.rs:163-186 | the latest input of a kind: it is of that kind and no later one is |
| `Keepalive.LatestTickInTime` | desktop/crates/session/src/controlplane.rs:124-144 | while a session runs, its latest tick found the peer heard within six seconds |
| `Keepalive.SilentPeerIsDropped` | desktop/crates/session/src/controlplane.rs:124-144 | a peer silent after t sees no turn later than t + 8 s; the tick that drops it is the first one later than 6 s after it was last heard |
| `Keepalive.PromptPeerSurvives` | desktop/crates/session/src/controlplane.rs:124-144 | a peer that answers every PING within any bound under six seconds is never declared dead |
| `Keepalive.SlowPeerCanBeDropped` | desktop/crates/session/src/controlplane.rs:124-144 | that bound is the best possible: a peer allowed six seconds or more can be dropped before it is late |
| `ModeControl.PrefixIsEarlier` | desktop/crates/app/src/adaptation_driver.rs:42-54 | any prefix of the modes a driver sent is all it had sent at some earlier sample |
| `ModeControl.WireFollowsController` | desktop/crates/session/src/controlplane.rs:115-123 | whatever interleaves, the last SET_MODE on the wire is a mode the controller was in, its current one once the queue is drained, and on the ladder from the default mode |
| `Wire.BeRoundTrip` | desktop/crates/ccp-protocol/src/media/mod.rs:95-108 | big-endian bytes of a number that fits decode to it |
| `Wire.BeOnto` | desktop/crates/ccp-protocol/src/media/mod.rs:112-139 | every byte string is the encoding of its value, which fits |
| `Wire.UnframeFrame` | desktop/crates/ccp-protocol/src/control/envelope.rs:24-58 | one complete frame comes back whole whatever follows it |
| `Wire.UnframePrefix` | desktop/crates/ccp-protocol/src/control/envelope.rs:40-58 | every strict prefix of a frame asks for more bytes |
| `Wire.UnframeTooLarge` | desktop/crates/ccp-protocol/src/control/envelope.rs:40-58 | a payload over the limit is refused as soon as its length is known |
| `Wire.UnframeStable` | desktop/crates/ccp-protocol/src/control/envelope.rs:40-58 | a frame or a too-large answer is unchanged by appended bytes |
| `Wire.DrainIncremental` | desktop/crates/ccp-protocol/src/control/envelope.rs:40-58 | draining early and again after more bytes equals draining once at the end, for all bytes |
| `Wire.FrameReader.Feed` | desktop/crates/ccp-protocol/src/control/envelope.rs:40-58 | the incremental loop adds exactly the frames completed by a chunk and keeps exactly the unread rest |
| `Wire.FeedAllIsDrain` | desktop/crates/ccp-protocol/src/control/envelope.rs:40-58 | any chunking of a byte stream without an oversized frame is read like the whole stream |
| `Wire.ChunkingIsInvisible` | desktop/crates/ccp-protocol/src/control/envelope.rs:24-58 | any list of payloads within the limit comes back from any cutting of its concatenated frames, with nothing left over |
| `Wire.LaidOutIff` | desktop/crates/ccp-protocol/src/media/mod.rs:80-108 | the 28 bytes of a header are determined by the field offsets: layout and concatenation say the same |
| `Wire.HeaderBytesAre` | desktop/crates/ccp-protocol/src/media/mod.rs:9-108 | the 28 bytes one by one: magic 0xCC01, type 1, flags, codec 0 for raw, 1 for HEVC, 2 for H.264, three zero bytes, then the big-endian fields |
| `Wire.EncodeRust` | desktop/crates/ccp-protocol/src/media/mod.rs:95-108 | the slice-copying encoder writes exactly those bytes |
| `Wire.EncodeSwift` | ios/Sources/ClearCamProtocol/MediaHeader.swift:67-85 | the pointer-writing encoder writes the same bytes |
| `Wire.WriteBe64` | ios/Sources/ClearCamProtocol/MediaHeader.swift:125-129 | the shift loop writes the big-endian bytes at the offset and touches no other byte |
| `Wire.ReadBe64` | ios/Sources/ClearCamProtocol/MediaHeader.swift:140-146 | the accumulator loop reads the big-endian value |
| `Wire.DecodeSwift` | ios/Sources/ClearCamProtocol/MediaHeader.swift:87-113 | the phone decoder returns what the desktop decoder returns, error cases included |
| `Wire.DecodesIff` | desktop/crates/ccp-protocol/src/media/mod.rs:112-139 | exactly which bytes are accepted, in which order fault is found, and what each field is read from |
| `Wire.HeaderRoundTrip` | desktop/crates/ccp-protocol/src/media/mod.rs:95-139 | decoding an encoded header, whatever follows, gives it back with the undefined flag bits cleared |
| `Wire.DecodeThenEncode` | desktop/crates/ccp-protocol/src/media/mod.rs:95-139 | re-encoding a decoded header gives back the bytes with reserved bytes and undefined flag bits zeroed |
| `MediaSocket.ReadMediaHello` | desktop/crates/session/src/pairing.rs:24-51 | result and remaining stream equal the reference function, with end of stream, bad JSON and another message told apart |
| `MediaSocket.WriteMediaHello` | desktop/crates/session/src/pairing.rs:53-79 | appends the length prefix and the JSON of the hello |
| `MediaSocket.WriteSession` | desktop/tools/mock-iphone/src/lib.rs:216-394 | a phone's media socket: the hello, then one record per frame |
| `MediaSocket.HelloIsReadIff` | desktop/crates/session/src/pairing.rs:24-51 | a socket is bound to a pair exactly by a length prefix and the JSON of a MEDIA_HELLO with that pair |
| `MediaSocket.HelloRoundTrip` | desktop/crates/session/src/pairing.rs:24-79 | a written hello is read back as the same binding, leaving exactly what follows |
| `MediaSocket.ReadMediaFrame` | desktop/crates/mediapipeline/src/reader.rs:19-40 | result and remaining stream equal the reference function, with short stream, bad header and oversized payload told apart |
| `MediaSocket.WriteMediaFrame` | desktop/crates/mediapipeline/src/reader.rs:42-61 | appends the header bytes and then the payload |
| `MediaSocket.RecordRoundTrip` | desktop/crates/mediapipeline/src/reader.rs:19-61 | a record is read back, leaving the reader aligned on the next, exactly when its length field is the payload size within 16 MiB and it has no undefined flag bits |
| `MediaSocket.CutStream` | desktop/crates/mediapipeline/src/reader.rs:19-61 | a stream that ends after any byte yields exactly the records that arrived whole, then end of file |
| `MediaSocket.SocketRoundTrip` | desktop/crates/mediapipeline/src/reader.rs:19-61 | a hello and any list of readable frames come back as the same binding and the same frames, nothing left over |
| `Nv12.TightAt` | ios/Sources/ClearCamCore/Encode/CVPixelBufferPacker.swift:34-47 | row r, column c of the tight plane is row r, column c of the strided one |
| `Nv12.CopyPlane` | ios/Sources/ClearCamCore/Encode/CVPixelBufferPacker.swift:34-47 | the row-copying loop fills a zeroed buffer with the tight rows and leaves the rest zero |
| `Nv12.PackPixelBuffer` | ios/Sources/ClearCamCore/Encode/CVPixelBufferPacker.swift:14-57 | both planes are copied tight and packed into one full-range raw frame |
| `Nv12.SplitUndoesPack` | desktop/crates/mediapipeline/src/frame_buf.rs:8-27 | splitting a payload gives two planes back exactly when they have the sizes packing demands |
| `Nv12.Preview` | desktop/src-tauri/src/preview.rs:69-92 | the pixel loop yields the picture defined by the index arithmetic, or stops on an index out of range, exactly when one exists |
| `Nv12.ImageAt` | desktop/src-tauri/src/preview.rs:73-92 | pixel (x, y) stands at position y * w + x of the output and holds the bytes at its luma and chroma indices |
| `Nv12.PreviewSurvivesIff` | desktop/src-tauri/src/preview.rs:75-81 | for planes split from a payload no index is out of range exactly when the picture is empty or both dimensions are even |
| `Nv12.ChromaShared` | desktop/src-tauri/src/preview.rs:77-81 | two pixels read one chroma pair exactly when they lie in one 2 x 2 block |
| `Nv12.PackedIsReadable` | ios/Sources/ClearCamCore/Encode/RawEncoder.swift:32-61 | a packed capture within the cap is a readable record whose payload splits back into its tight planes |
| `Nv12.PackedHeader` | ios/Sources/ClearCamCore/Encode/RawEncoder.swift:32-61 | a packed frame is raw, of its size, with the full-range bit exactly if captured so |
| `Nv12.CaptureIsDrawn` | desktop/src-tauri/src/preview.rs:69-92 | of a capture of even size, packed, sent and split, the preview draws at position y * width + x the luma, blue and red difference bytes of the capture buffer, in that order |
| `Nv12.CaptureToPreview` | desktop/src-tauri/src/preview.rs:69-92 | for even dimensions, any strides and any payload within the cap, the frame packed, sent, read and split shows at (x, y) the source luma byte and the source chroma pair of its block |
| `Pipeline.Handle` | desktop/crates/mediapipeline/src/pipeline.rs:40-59 | a marker goes to the counter and to no sink, any other frame to every sink if it can be ingested and to no counter |
| `Pipeline.Pump` | desktop/crates/mediapipeline/src/pipeline.rs:36-64 | the endless loop gives every sink exactly the ingestible video and the counter exactly the markers, in order, until the first unreadable record |
| `Pipeline.RecordsArrive` | desktop/crates/mediapipeline/src/pipeline.rs:36-114 | from the bytes on the socket: of any mix of readable records the sinks get exactly the decoder's pictures of the encoded ones and the planes of the well-sized raw ones, in order, and the counter exactly the markers |
| `Pipeline.EncodedVideoArrives` | desktop/crates/mediapipeline/src/pipeline.rs:87-114 | an encoded stream shows exactly what the decoder answers, in order, and counts nothing |
| `Pipeline.MarkersAndVideoAreSeparate` | desktop/crates/mediapipeline/src/pipeline.rs:40-54 | for every interleaving the sinks see what they would without markers and the counter what it would without video |
| `Pipeline.SinksSeeOnlyVideo` | desktop/crates/mediapipeline/src/pipeline.rs:40-59 | every frame a sink receives was ingested from a frame that is not a marker |
| `Pipeline.Sinks.Submit` | desktop/crates/mediapipeline/src/pipeline.rs:110-113 | a frame is appended to every sink once |
| `Pipeline.SpeedTestCounter.BytesForStep` | desktop/crates/mediapipeline/src/speedtest_counter.rs:48-56 | the loop returns the payload sum of that step since the last drain |
| `Pipeline.SpeedTestCounter.Drain` | desktop/crates/mediapipeline/src/speedtest_counter.rs:59-61 | returns all arrivals and leaves none |
| `Video.VideoSender.SendCaptured` | ios/Sources/ClearCamCore/Session/SessionController.swift:259-274 | each captured picture uses up the next 32-bit number; one of the right plane sizes is written as one record under it, any other is refused and writes nothing |
| `Video.VideoSender.SendAll` | ios/Sources/ClearCamCore/Session/SessionController.swift:259-274 | for every sequence of pictures the wire carries one record for each well-sized one, numbered by its position |
| `Video.ReadsUntilOversized` | desktop/crates/mediapipeline/src/reader.rs:19-40 | for every sequence of pictures the desktop reads exactly the records before the first picture over 16 MiB and stops there with an error, or else at end of file |
| `Video.PicturesArrive` | desktop/crates/mediapipeline/src/pipeline.rs:36-64 | so a sink gets exactly the well-sized pictures before the first oversized one, whole and in order, with number, time and range flag, less those whose number is in the marker range; exactly those are counted as speedtest traffic |
| `Video.AllArriveIff` | desktop/crates/mediapipeline/src/pipeline.rs:36-64 | every well-sized picture arrives exactly when none exceeds the cap and none has a number in the marker range |
| `Video.MistakenIff` | desktop/crates/mediapipeline/src/speedtest_counter.rs:11-16 | if all are well-sized, video is counted as speedtest traffic exactly from the 4294901760th picture on |
| `Speedtest.Evaluate` | desktop/crates/adaptive/src/speedtest.rs:65-85 | the sustained rate is the largest capped rate of an accepted step, zero if none; a positive one was really transferred by a step that carried 85% of its target within twice the baseline, and no such step transferred more, up to its target; the round trip is the worst seen |
| `Speedtest.MeasurementIsTransferred` | desktop/crates/adaptive/src/speedtest.rs:26-76 | that bound in bytes and milliseconds, for any observations |
| `Speedtest.MeasurementUnique` | desktop/crates/adaptive/src/speedtest.rs:65-85 | that description fits one result only |
| `Speedtest.SpeedtestRamp` | desktop/tools/mock-iphone/src/lib.rs:420-461 | the generator writes readable marker records that count as the planned number of frames per step |
| `Speedtest.Measure` | desktop/crates/app/src/lib.rs:302-324 | the aggregation evaluates exactly the bytes counted per step since the drain and leaves the counter empty |
| `Speedtest.RampBytes` | desktop/tools/mock-iphone/src/lib.rs:428-460 | the ramp counts for each step that step's frames and nothing of another |
| `Speedtest.FramesFillBudget` | desktop/crates/adaptive/src/speedtest.rs:95-104 | a step sends as many whole frames as its budget of bits holds, and at least one |
| `Speedtest.NoPixelsNoFrames` | desktop/crates/adaptive/src/speedtest.rs:95-99 | and none exactly of a picture without pixels |
| `Speedtest.LosslessStepAccepted` | desktop/crates/adaptive/src/speedtest.rs:65-104 | on a lossless link a step whose budget holds at least six whole frames, at a target of at least 120 kbit/s, is accepted and never over-measured |
| `Speedtest.SaturatedStepAcceptedIff` | desktop/crates/adaptive/src/speedtest.rs:95-104 | a step whose frame count saturates at 32 bits is accepted exactly when 2^32 - 1 frames still make 85% of the target |
| `Speedtest.InterleavedIsCounted` | desktop/crates/mediapipeline/src/pipeline.rs:40-54 | whatever video is interleaved with the ramp, the counter logs exactly the ramp |
| `Speedtest.LosslessGoodput` | desktop/crates/adaptive/src/speedtest.rs:65-104 | on a lossless link, whatever video is interleaved with the ramp, the result is at least 85% of every such step |
| `Speedtest.GoodputBelowTop` | desktop/crates/adaptive/src/speedtest.rs:65-85 | whatever was counted, the result never exceeds the largest target |
| `Speedtest.RampGoodput` | desktop/crates/adaptive/src/speedtest.rs:15-104 | the shipped ramp on a lossless link measures between 680 and 800 Mbit/s for every even picture up to 5.5 megapixels |
| `Speedtest.RampRecommends` | desktop/crates/app/src/lib.rs:325-330 | such a measurement recommends the best advertised mode whenever its HEVC target is at most 476 Mbit/s |
| `Speedtest.DefaultRampEnds` | desktop/crates/adaptive/src/speedtest.rs:15-16 | the shipped ramp doubles four times from 50 to 800 Mbit/s in half-second steps |
| `Speedtest.DefaultCapsTop` | desktop/crates/app/src/lib.rs:391-418 | the default capabilities are 720p and 1080p at 30 and 60 fps in all three formats, with 1080p60 on top |
| `Speedtest.ShippedSpeedtest` | desktop/crates/app/src/lib.rs:254-335 | end to end: with the shipped ramp and the default capabilities, on a lossless link and whatever video is interleaved, the speedtest measures 680 to 800 Mbit/s and recommends 1080p60 HEVC at 50000 kbit/s |
| `SelectMode.SelectMode` | desktop/crates/adaptive/src/select_mode.rs:38-131 | the filtering loop, the raw-only retain and the fallback compute the choice the reference function makes |
| `SelectMode.KeyIsLexicographic` | desktop/crates/adaptive/src/select_mode.rs:127-130 | the ranking number compares area, then frame rate, then raw over encoded |
| `SelectMode.CandidatesAreFeasible` | desktop/crates/adaptive/src/select_mode.rs:47-121 | the candidate list holds exactly the renditions within the limits that the link can carry |
| `SelectMode.ChosenIsArgmax` | desktop/crates/adaptive/src/select_mode.rs:38-144 | the loop refines the set argmax: an eligible mode of the highest rank, or the fallback exactly when none is eligible |
| `SelectMode.OffersAreRenditions` | desktop/crates/adaptive/src/select_mode.rs:47-121 | what is offered is exactly what is advertised, within the limits, rendered as HEVC before H.264 or raw, at a rate of at most 70% of the goodput and, for raw, 480 Mbit/s on USB 2 and 5 Gbit/s on USB 3 |
| `SelectMode.ChosenFitsLink` | desktop/crates/adaptive/src/select_mode.rs:38-131 | whenever anything fits, the choice is such a rendition of an advertised mode |
| `SelectMode.NothingBetterFits` | desktop/crates/adaptive/src/select_mode.rs:38-131 | and conversely no such rendition outranks it, if raw is not preferred |
| `SelectMode.FortyMegabits` | desktop/crates/adaptive/src/select_mode.rs:12-131 | a 40 Mbit/s Wi-Fi link picks 720p60 at 20000 kbit/s and not 1080p30 |
| `SelectMode.OrderIrrelevant` | desktop/crates/adaptive/src/select_mode.rs:38-131 | reordering or repeating the advertised modes does not change the rank of the choice |
| `SelectMode.LimitsHoldIff` | desktop/crates/adaptive/src/select_mode.rs:123-144 | the user limits hold for the choice exactly when something fits or they admit the fallback |
| `SelectMode.FallbackIgnoresLimits` | desktop/crates/adaptive/src/select_mode.rs:133-144 | a query whose choice breaks the user's width limit |
| `SelectMode.ChoiceNeverFalls` | desktop/crates/adaptive/src/select_mode.rs:38-131 | while something fits, more goodput, ceiling, freedom or capability never lowers the rank if raw is not preferred; if it is, a raw choice stays raw with a rank no lower |
| `SelectMode.GrowthFromNothingCanFall` | desktop/crates/adaptive/src/select_mode.rs:123-144 | a growth of goodput that lowers the rank, because the fallback outranks the first mode to fit |
| `SelectMode.ChoiceFallsIff` | desktop/crates/adaptive/src/select_mode.rs:38-144 | without a raw preference the rank falls on growth in exactly that case |
| `SelectMode.RawPreferenceCanFall` | desktop/crates/adaptive/src/select_mode.rs:123-125 | with raw preferred, a growth that trades a large encoded mode for a small raw one |
| `SelectMode.RawChoiceFallsIff` | desktop/crates/adaptive/src/select_mode.rs:38-144 | with raw preferred the rank falls on growth exactly when nothing fitted and all now eligible rank below the fallback, or no raw mode fitted and all that now do rank below something that did |
| `SelectMode.RawNeverImprovesPicture` | desktop/crates/adaptive/src/tables.rs:5-31 | with an encoder everywhere and raw not preferred, deleting raw leaves area and frame rate of the choice unchanged |
| `UsbDiff.Watcher.Poll` | desktop/crates/transport/src/usb/conductor.rs:60-87 | one poll emits the connects and then the losses of the difference and replaces the listing; a failed poll changes nothing |
| `UsbDiff.Watch` | desktop/crates/transport/src/usb/conductor.rs:56-90 | any number of polls leaves the latest filtered listing and the events of the reference function |
| `UsbDiff.AboutDiff` | desktop/crates/transport/src/usb/conductor.rs:71-86 | a poll reports a device exactly when its presence changed, as often as the listing names it, as connected or lost according to the new listing |
| `UsbDiff.FreshAreListed` | desktop/crates/transport/src/usb/conductor.rs:71-75 | a connect carries a device of the new listing |
| `UsbDiff.GoneWereListed` | desktop/crates/transport/src/usb/conductor.rs:77-86 | a loss carries the id and udid of a device of the old listing |
| `UsbDiff.LastTells` | desktop/crates/transport/src/usb/conductor.rs:47-91 | over every sequence of polls the last event about a device tells whether the latest successful listing shows it on USB |
| `UsbDiff.EventsAlternateIff` | desktop/crates/transport/src/usb/conductor.rs:47-91 | over every sequence of polls, failed ones included, an id's events alternate connected, lost, starting with connected, exactly when no listing that changes its presence names it twice |
| `UsbDiff.EventsAlternate` | desktop/crates/transport/src/usb/conductor.rs:47-91 | so they do for every id when each listing names each id once |
| `UsbDiff.ListenerIsUpToDate` | desktop/crates/transport/src/usb/conductor.rs:47-91 | folding all events gives exactly the ids of the USB devices in the latest successful listing |
| `Listener.TransportListener.TryMatch` | ios/Sources/ClearCamCore/Transport/TransportListener.swift:117-125 | the matching loop hands over as many triples as the shortest queue allows, first come first served |
| `Listener.TransportListener.Arrive` | ios/Sources/ClearCamCore/Transport/TransportListener.swift:94-115 | an arrival of any kind is queued and matched at once |
| `Listener.HandoversAreTheZip` | ios/Sources/ClearCamCore/Transport/TransportListener.swift:94-126 | for every interleaving the handovers are the zip of the three arrival sequences, the queues their remaining suffixes, and one queue is empty |
| `Base64.Base64Url` | desktop/crates/app/src/lib.rs:604-623 | the chunk loop computes the encoding defined by recursion on three-byte groups |
| `Base64.SextetsAre` | desktop/crates/app/src/lib.rs:612-620 | which bits of the three bytes each character carries |
| `Base64.LettersAreStandard` | desktop/crates/app/src/lib.rs:605 | the 64 characters of the alphabet, in order |
| `Base64.GroupOfThree` | desktop/crates/app/src/lib.rs:607-621 | three bytes become four characters, six bits each from the most significant end |
| `Base64.GroupOfTwo` | desktop/crates/app/src/lib.rs:607-621 | two bytes become three characters, filled up with zero bits |
| `Base64.GroupOfOne` | desktop/crates/app/src/lib.rs:607-621 | one byte becomes two characters |
| `Base64.DecodeEncode` | desktop/crates/app/src/lib.rs:604-623 | decoding an encoding gives the bytes back, short last groups included |
| `Base64.EncodeInjective` | desktop/crates/app/src/lib.rs:604-623 | distinct bytes make distinct tokens |
| `Base64.TokenShape` | desktop/crates/app/src/lib.rs:604-623 | a token has the unpadded length and URL-safe characters only |

## Left out

- Rounding of `f64`: round-trip times, goodput and the factors 0.85, 0.70, 0.8 and 2.0 are exact reals or integer ratios, without NaN or infinity.
- Tokio, sockets, listeners, timers and the USB backend: their effects are inputs; send timeouts appear as failed sends.
- JSON: the library is a parameter, assumed only to parse back what it wrote.
- UUIDs: session ids are inputs; the results that need fresh ones say so.
- Queue capacities: sends wait in the source and are modelled as succeeding or failing; the lossy copy of telemetry towards the controller is not modelled, its samples are the run's input.
- AcceptLoop: safety only; the loop waits for a media hello while other events queue up, so nothing is promised about when a socket is paired. The speedtest-counter slot, set and cleared beside the outbound slot, and the interface state shown during a handshake are not modelled.
- ControlPlane: one session owns the snapshot; writes of other parts of the program to the shared snapshot are its initial value only.
- ControlPlane: a message is received whole. In the source a tick or command that wins the select between two segments of a frame drops the bytes already read (desktop/crates/transport/src/framing.rs:29-43), after which the stream is misread.
- Keepalive: turns take no time and a tick is never late.
- SessionController: starting the capture engine after CAMERA_LIST, later SET_CAMERA, PING and telemetry handling, and the texts of stop reasons.
- AdaptationState: overflow of the 32-bit product wraps, as in a release build; a debug build stops there instead.
- SendCaptured: a well-sized picture over 4 GiB stops the phone at the 32-bit length and is not modelled.
- LosslessStepAccepted: covers frame counts below 2^32; SaturatedStepAcceptedIff covers the rest. The 64-bit product of target and step length is not bounded.
- Nv12: the colour conversion formula, scaling and JPEG encoding; only which bytes each pixel reads.
- Preview rate limit: `submit` drops pictures less than 33 ms apart; which ones depends on a clock only.
- Decoders: an encoded frame becomes a picture, or nothing, by an arbitrary function.
- Fields and enumerations with one possible value (pixel format, media type), and message fields no modelled rule reads.
- WireFollowsController: supposes that only the driver queues SET_MODE, as in the repository.
- Thin members that add nothing hard: pairing-key storage, trust dialogs, reconnect backoff, label tables, the pass-through decoder, the transport selector, user interfaces.
