# OpenGloves driver and server: a verified model

This project models the parts of the OpenGloves SteamVR driver and its server in which state,
arithmetic and text formats meet, and proves what they are for. Every file is Dafny 4.11;
`dafny verify dfyconfig.toml` checks all of it.

| part | files |
|---|---|
| The alpha glove protocol: key table, scanner, packet decoder and the fields by their names in the text, encoder, the two transports, the thread that queues outputs and what the scanner reads from its queue | `AlphaKeys`, `AlphaParser`, `Decimal`, `AlphaDecoder`, `DecodeTheorems`, `PacketFields`, `AlphaEncoder`, `Transport`, `CommunicationManager`, `QueueReading` |
| Pose calibration: quaternion algebra, tracked matrices, the calibration object, runs of button and UI events, stored settings | `DriverMath`, `QuaternionAlgebra`, `TrackedOrientation`, `PoseCalibration`, `DevicePose`, `CalibrationTheorems`, `CalibrationRuns`, `EulerAngles`, `PoseSettings` |
| The named-pipe listener as a state machine driven by arbitrary answers of the operating system, and the protocol on its log that it refines | `NamedPipe`, `PipeDelivery`, `PipeProtocol` |
| The OSC encoder and receiver over a fixed buffer, against the OSC 1.0 format | `OscFormat`, `OscRoundTrip`, `MiniOsc`, `OscBundle`, `OscBundleRuns`, `OutputOsc`, `OscProcess`, `OscReceiving` |
| The animated hand skeleton, its mirror image, and the way from a glove's text to its bones | `AnimLoader`, `Interpolation`, `HandTracking`, `HandTheorems`, `HandMirror`, `GloveToHand` |

`NativeTypes` and `Texts` hold the integer types and a law of concatenation that several parts use.

How to read it. A file that models imperative code holds the methods or the class with its loops and
fields, and a function for the value that each of them computes or leaves; the methods are proved
against those functions, and the `...Theorems`, `...Runs` and `...RoundTrip` files prove what the
functions mean. Runs are sequences of events; a run's last event is taken off the end.

Modelling decisions:

- `float` and `double` are `real`. A square root is a non-negative number whose square is the
  radicand, passed along as a witness (`Roots`). Trigonometric calls are a `Trigonometry` value: half
  an angle is a cosine and a sine; `EulerAngles.IsTrigonometry` lists what is used about them.
- Interpolating at exactly the last keyframe time divides zero by zero (hand_tracking.cpp:181). A bone's
  orientation and position are therefore `Numeric`: numbers, or `NotNumbers`, which splaying and
  mirroring keep.
- A char of a packet or of an OSC buffer is a byte. Pointers into a buffer are offsets; where the code
  reads behind a buffer, what memory holds there is an input, called `beyond`.
- What the operating system, the tracking runtime and other threads do is an input of the model.

Where the code does less than its names or comments suggest, the model follows the code, and a lemma
says exactly when the intended property holds; where it helps, another has an input for which it fails:

- negative force-feedback numbers are lost on the way back (`ForceFeedbackRoundTripIff`);
- a parenthesised key without a value swallows the next key (`ReadBackIffSeparated`), so a request for
  streaming takes the thumb of the force feedback queued behind it (`QueueTellsLastIff`,
  `RequestLosesThumb`);
- an output that arrives between a write and the clearing of the queue is lost (`OutputsConservedIff`,
  `OverlookedOutputIsLost`);
- the receiver of OSC messages loses its place after a string (`ComesBackIff`, in the receiver's buffer
  `AlwaysComesBackIff` and `SentComesBackIff`; `NumberAfterStringIsLost`);
- a failing call leaves a bundle that does not decode (`BundleDecodesIff`), and enough of them lead the
  place behind the buffer (`RunStaysInsideIff`, with 381 empty addresses: `EmptyCallsLeaveBuffer`);
- a controller at a half turn may be read as another rotation (`OrientationRecoversRotationIff`,
  `HalfTurnIsMisread`), and the hand then does not move with it (`HandMovesWithController`);
- a completed calibration shows the frozen pose, without a jump, only if the controller is tracked at
  that moment and no radicand of its matrix is negative (`CompletionShowsFrozenPose`,
  `NoJumpOnCompletionIff`); if tracking is lost, the hand jumps to the origin (`LostTrackingJumps`);
- a calibration gives a unit offset only if it starts from a tracked controller
  (`CalibrationGivesUnitIff`, over runs `UnitThroughoutIff`); otherwise the offset becomes the zero
  quaternion (`UntrackedStartLosesOrientation`);
- a packet of zeros is rejected as empty while one without keys is not (`EmptyIffSilent`,
  `KeylessTextIsAccepted`);
- stored angles come back only if they are canonical (`SaveOfLoadIff`, `SteepPitchIsRewritten`), and a
  stored rotation only if it is a unit quaternion whose pitch is not a right angle or that has no x
  component (`LoadOfSaveIff`; `PoleIsNotStorable`, and `UntrackedOffsetIsNotReloaded` for the zero
  quaternion of a calibration without tracking);
- a joint sent as exactly the last keyframe time gives a pose that is not a number
  (`SentJointGivesNumbersIff`; `FullRangeIsNotANumber`, `FullIndexJointIsSent`).

## Model

| member | source | states |
|---|---|---|
| AlphaKeys.WireNames | server/src/communication/encoding/alpha_encoding_service.cpp:17-66 | The spelling of every curl, splay and joint key agrees with the enumerators that the decoder counts through |
| AlphaKeys.TableIsReadable | server/src/communication/encoding/alpha_encoding_service.cpp:17-66 | Every non-empty key of the table is one the scanner can read, and none of them is the junk key |
| AlphaParser.ParseToMap | server/src/communication/encoding/alpha_encoding_service.cpp:99-136 | The scanner with its three loops terminates on every text and returns the map of the tokens found |
| AlphaParser.AssignedKeys | server/src/communication/encoding/alpha_encoding_service.cpp:128-129 | A key is in the map exactly if some token has it |
| AlphaParser.LastTokenWins | server/src/communication/encoding/alpha_encoding_service.cpp:128-129 | A key's value is that of the last token that has it |
| AlphaParser.JunkKeyNeverStored | server/src/communication/encoding/alpha_encoding_service.cpp:65-136 | The junk key never appears in a parsed map |
| AlphaParser.ReadBackIffSeparated | server/src/communication/encoding/alpha_encoding_service.cpp:107-126 | A printed list of readable keys with digit values is read back as that list if and only if no parenthesised key without a value comes before another key |
| AlphaParser.ParseOfRender | server/src/communication/encoding/alpha_encoding_service.cpp:99-136 | Printing a separated list of known keys and parsing it gives exactly the last-wins map of the list |
| AlphaParser.TokensAcrossSeparator | server/src/communication/encoding/alpha_encoding_service.cpp:102-126 | Text on the two sides of any character that is neither key nor digit is scanned independently |
| AlphaParser.ParseAcrossNewline | server/src/communication/encoding/alpha_encoding_service.cpp:99-136 | Parsing turns a newline into overriding: the map of a, newline, b is that of a overridden by that of b |
| Decimal.ValueOfPrint | server/src/communication/encoding/alpha_encoding_service.cpp:282-293 | The digits printed for a number have that number as their value |
| Decimal.ReadableNumerals | server/src/communication/encoding/alpha_encoding_service.cpp:146-200 | stof reads the non-empty numerals below 2^128 - 2^103, and stoi those below 2^31; others throw |
| AlphaDecoder.DecodeCurls | server/src/communication/encoding/alpha_encoding_service.cpp:146-159 | The five whole-finger curls are their keys' numbers over the range, -1 if absent, and decoding fails exactly on an unreadable one |
| AlphaDecoder.DecodeJoints | server/src/communication/encoding/alpha_encoding_service.cpp:161-171 | The nested loops with their running joint counter give every joint its own key's number, else its finger's curl |
| AlphaDecoder.DecodeSplays | server/src/communication/encoding/alpha_encoding_service.cpp:173-183 | Each splay is its own key's number, centred on half the range, and 0 if absent |
| AlphaDecoder.DecodePeripheralPacket | server/src/communication/encoding/alpha_encoding_service.cpp:142-207 | The decoder fails exactly on an unreadable number or on data equal to the default, and otherwise returns every field under its own key |
| AlphaDecoder.ParsedValuesAreDigits | server/src/communication/encoding/alpha_encoding_service.cpp:121-126 | Every value the scanner stores consists of digits |
| AlphaDecoder.DecodePacket | server/src/communication/encoding/alpha_encoding_service.cpp:224-249 | The whole decoder is total: every text has a meaning, an invalid input in case of an exception |
| DecodeTheorems.EmptyIffSilent | server/src/communication/encoding/alpha_encoding_service.cpp:204 | The test for an empty packet succeeds exactly if all joints are sent as zero, everything centred is absent or at half range, and nothing is pressed |
| DecodeTheorems.DecodedTypeIff | server/src/communication/encoding/alpha_encoding_service.cpp:224-249 | Which type of input comes out, characterised by the parsed map alone, in both directions |
| DecodeTheorems.KeylessTextIsAccepted | server/src/communication/encoding/alpha_encoding_service.cpp:146-207 | A text without any key decodes to a peripheral packet whose joints are all -1 |
| PacketFields.KindByText | server/src/communication/encoding/alpha_encoding_service.cpp:224-249 | A text is a peripheral packet if and only if it does not mention Z, every number in it can be read and it is not silent; an info packet mentions Z |
| PacketFields.ButtonFields | server/src/communication/encoding/alpha_encoding_service.cpp:195-202 | Each button and gesture is on if and only if the text mentions its letter: H joystick, I trigger, J A, K B, L grab, M pinch, N menu, O calibrate |
| PacketFields.AnalogFields | server/src/communication/encoding/alpha_encoding_service.cpp:185-193 | The joystick's axes are the numbers behind the last F and G, centred on half the range, and the trigger's value is the one behind the last P, over the range |
| PacketFields.SplayField | server/src/communication/encoding/alpha_encoding_service.cpp:173-183 | The splay of finger i is the number behind the last (AB) to (EB), centred, or 0 |
| PacketFields.JointField | server/src/communication/encoding/alpha_encoding_service.cpp:161-171 | Joint j of finger i is the number behind its own last name, (AAA) to (EAD), else behind its finger's, A to E, over the range, else -1 |
| PacketFields.InfoFields | server/src/communication/encoding/alpha_encoding_service.cpp:209-222 | Hand, device type and firmware version are the numbers behind the last (ZH), (ZG) and (ZV), or 0 |
| DecodeTheorems.DecodedValuesInRange | server/src/communication/encoding/alpha_encoding_service.cpp:146-193 | Numbers within the analog range give flexions in [0, 1] or -1, splays and joysticks in [-1, 1] and a trigger in [0, 1] |
| AlphaEncoder.WireTexts | server/src/communication/encoding/alpha_encoding_service.cpp:267-315 | The text of every output, letter by letter |
| AlphaEncoder.ParseOfForceFeedback | server/src/communication/encoding/alpha_encoding_service.cpp:279-294 | Parsing an encoded force-feedback message gives the five curl keys with their numbers, the negative ones emptied |
| AlphaEncoder.ForceFeedbackRoundTripIff | server/src/communication/encoding/alpha_encoding_service.cpp:279-294 | The five numbers arrive as sent if and only if none is negative |
| Transport.ReceiveSerial | server/src/communication/services/service_serial_win.cpp:112-127 | The byte loop of a serial receive, for every sequence of read outcomes |
| Transport.ReceiveSocket | server/src/communication/services/service_bluetooth_win.cpp:134-149 | The byte loop of a Bluetooth receive, for every sequence of read outcomes |
| Transport.SerialCallIs | server/src/communication/services/service_serial_win.cpp:112-127 | For any outcomes a serial call fails, returns or blocks at the first failing read, newline or end of its connection, with the bytes up to there |
| Transport.SocketCallIs | server/src/communication/services/service_bluetooth_win.cpp:134-149 | For any outcomes a Bluetooth call does the same with the newline, and repeats the last byte for each read of a closed connection |
| Transport.SerialCallReadsLine | server/src/communication/services/service_serial_win.cpp:112-127 | Without errors, a call returns the text so far and the next line without its newline, however many reads were empty |
| Transport.SocketCallReadsLine | server/src/communication/services/service_bluetooth_win.cpp:134-149 | Without errors, a call returns the text so far and the next line with its newline |
| Transport.LinesAreTheStream | server/src/communication/services/service_serial_win.cpp:112-127 | The lines received, with their newlines, are the front of the byte stream: nothing is lost or reordered |
| Transport.LinesHoldNoNewline | server/src/communication/services/service_serial_win.cpp:121-125 | No received line holds a newline |
| Transport.SerialReceivesLines | server/src/communication/services/service_serial_win.cpp:112-127 | n serial receives return the first n lines of the stream, in order |
| Transport.SocketReceivesLines | server/src/communication/services/service_bluetooth_win.cpp:134-149 | n Bluetooth receives return the first n lines, each with its newline |
| Transport.TransportIndependence | server/src/communication/services/service_serial_win.cpp:112-127 | The same bytes decode to the same inputs over both transports, for every pattern of empty serial reads |
| CommunicationManager.HardwareCommunicationManager.WriteOutput | server/src/communication/managers/hardware_communication_manager.cpp:58-61 | An output's text is appended to the queue |
| CommunicationManager.HardwareCommunicationManager.CommunicationThread | server/src/communication/managers/hardware_communication_manager.cpp:32-56 | Over any passes: what is written, what stays queued and which inputs reach the callback |
| CommunicationManager.CharactersAccountedFor | server/src/communication/managers/hardware_communication_manager.cpp:44-61 | Written and queued text together miss exactly as many characters as arrive between a write and its clearing |
| CommunicationManager.OutputsConservedIff | server/src/communication/managers/hardware_communication_manager.cpp:44-61 | Everything appended, in order, is what was written followed by what is queued, if and only if no text arrives in that window |
| CommunicationManager.OverlookedOutputIsLost | server/src/communication/managers/hardware_communication_manager.cpp:44-61 | A force-feedback message that arrives between a write and its clearing is neither written nor queued |
| CommunicationManager.LastMessageWins | server/src/communication/managers/hardware_communication_manager.cpp:58-61 | A text of queued force-feedback messages parses to the last of them |
| CommunicationManager.FlushMeansLastOutput | server/src/communication/managers/hardware_communication_manager.cpp:44-54 | What one pass queued, its newline included, parses to the last output it queued |
| CommunicationManager.WritesArePasses | server/src/communication/managers/hardware_communication_manager.cpp:44-54 | Every write of a run is what one pass queued, its newline included, and the first one has what was queued before |
| CommunicationManager.EveryPassWrites | server/src/communication/managers/hardware_communication_manager.cpp:32-56 | Every pass that is made writes once, but for the one that ends the thread |
| CommunicationManager.EveryPacketReachesCallback | server/src/communication/managers/hardware_communication_manager.cpp:32-56 | Every packet received reaches the callback, decoded and in order, the one of a failing write included |
| QueueReading.QueueTells | server/src/communication/encoding/alpha_encoding_service.cpp:267-315 | The curl keys that the scanner reads from any queue of outputs are those of its force-feedback messages, later ones overriding; haptic texts touch none, and a request for streaming in front of a message takes its thumb key |
| QueueReading.QueueTellsLastIff | server/src/communication/encoding/alpha_encoding_service.cpp:267-315 | The glove reads the curls of the last force-feedback message of a queue if and only if the last message without a request in front of it has the same thumb; the other four curls are always the last message's |
| QueueReading.RequestLosesThumb | server/src/communication/encoding/alpha_encoding_service.cpp:267-315 | From a request for streaming and one force-feedback message behind it, the glove reads the message without its thumb |
| QueueReading.EveryWriteTellsLastOutputIff | server/src/communication/managers/hardware_communication_manager.cpp:32-61 | Every write of a run, whatever outputs were queued for it, tells the glove the last force feedback under exactly that condition |
| NamedPipe.NamedPipeListener.Connect | server/lib/named_pipe/named_pipe_win.h:88-111 | The state after each answer of ConnectNamedPipe, success counting as failure |
| NamedPipe.NamedPipeListener.DisconnectAndReconnect | server/lib/named_pipe/named_pipe_win.h:113-118 | A disconnect and a connect, in this order |
| NamedPipe.NamedPipeListener.Pass | server/lib/named_pipe/named_pipe_win.h:150-210 | One pass of the loop, for every combination of answers |
| NamedPipe.NamedPipeListener.ListenerThread | server/lib/named_pipe/named_pipe_win.h:147-211 | The thread over any number of passes; it does not start, and logs nothing, after a failed connect |
| PipeDelivery.StepKeepsInvariant | server/lib/named_pipe/named_pipe_win.h:149-211 | Every pass keeps: Connecting has a pending connect, Callback has no pending operation and holds the last completed read, and every event is explained by the one before it |
| PipeDelivery.RunKeepsInvariant | server/lib/named_pipe/named_pipe_win.h:149-211 | So does every run, for all answers |
| PipeDelivery.SettledByDelivery | server/lib/named_pipe/named_pipe_win.h:189-210 | A completed read is followed by its delivery, then of full size, or by a disconnect; no read is issued in between |
| PipeDelivery.ConnectionIsBalanced | server/lib/named_pipe/named_pipe_win.h:149-211 | In any log in which events follow each other so, deliveries and held bytes are the completed reads, stretch by stretch |
| PipeDelivery.DeliveryOverRuns | server/lib/named_pipe/named_pipe_win.h:147-211 | Over every run and within each connection the data callbacks are the completed reads, in order and once each, all of full size, with at most the bytes held in state Callback outstanding |
| PipeDelivery.ConnectionEventsAnswerConnects | server/lib/named_pipe/named_pipe_win.h:179-183 | Each ClientConnected event answers its own pending connect; after an issued read comes its completion or a disconnect |
| PipeProtocol.StepRefines | server/lib/named_pipe/named_pipe_win.h:149-211 | A pass adds to the log exactly what a protocol says that knows the last event and the answers alone, and ends the thread exactly when a pending connect fails |
| PipeProtocol.LogIsProtocol | server/lib/named_pipe/named_pipe_win.h:147-211 | Over every run the log of the listener is that of the protocol |
| PipeProtocol.ListenerServes | server/lib/named_pipe/named_pipe_win.h:179-207 | Without failing waits, right behind every completed read of full size is its delivery, and while the thread is active right behind every pending connect its ClientConnected, but at the end of the log |
| PipeProtocol.DisconnectsAreFaults | server/lib/named_pipe/named_pipe_win.h:149-211 | Over every run there are exactly as many disconnects as passes with a failed wait, or a failed, empty or short read |
| PipeProtocol.CleanRunDeliversAll | server/lib/named_pipe/named_pipe_win.h:149-211 | A run in which nothing fails and every read brings a whole message never disconnects, and delivers everything it reads, in order, but for the message it holds |
| QuaternionAlgebra.Associative | driver/src/util/driver_math.cpp:72-79 | The product is associative |
| QuaternionAlgebra.ConjugateOfProduct | driver/src/util/driver_math.cpp:68-79 | The unary minus reverses products |
| QuaternionAlgebra.NormOfProduct | driver/src/util/driver_math.cpp:72-79 | The norm is multiplicative |
| QuaternionAlgebra.CancelConjugate | driver/src/util/driver_math.cpp:68-79 | Multiplying by a quaternion and its conjugate scales by the squared norm |
| QuaternionAlgebra.RotateByProduct | driver/src/util/driver_math.cpp:121-127 | Turning by a product is turning twice |
| QuaternionAlgebra.RotateThereAndBack | driver/src/util/driver_math.cpp:121-127 | Turning by the conjugate undoes a turn, up to the fourth power of the norm |
| QuaternionAlgebra.RotateByAxes | driver/src/util/driver_math.cpp:121-127 | Turning is linear: it is given by where the axes go |
| TrackedOrientation.OrientationIsUnitIff | driver/src/util/driver_math.cpp:53-66 | The orientation read from a matrix is a unit quaternion if and only if no radicand is negative; its norm is never below 1 |
| TrackedOrientation.OrientationRecoversRotationIff | driver/src/util/driver_math.cpp:53-66 | The matrix of a unit quaternion q is read as q or -q if and only if q has a real part or x, y and z of one sign |
| TrackedOrientation.OrientationOfRotation | driver/src/util/driver_math.cpp:53-66 | Which quaternion is read from the matrix of a rotation, half turns included |
| TrackedOrientation.HalfTurnIsMisread | driver/src/util/driver_math.cpp:53-66 | A half turn about the axis (0.6, -0.8, 0) is read as one about (0.6, 0.8, 0) |
| TrackedOrientation.ComposeRigid | driver/src/util/driver_math.cpp:72-79 | Composing the matrices of two rigid motions multiplies their quaternions |
| PoseCalibration.PoseCalibration.constructor | driver/src/device/pose/device_pose.cpp:18 | A new calibration object is zero: not calibrating, owned by Hardware |
| PoseCalibration.PoseCalibration.StartCalibration | driver/src/device/pose/pose_calibration.cpp:11-25 | The pose is frozen without velocities, and the caller owns the calibration |
| PoseCalibration.PoseCalibration.CancelCalibration | driver/src/device/pose/pose_calibration.cpp:27-29 | Only the owner stops a calibration |
| PoseCalibration.PoseCalibration.CompleteCalibration | driver/src/device/pose/pose_calibration.cpp:31-55 | Only the owner ends it and gets new offsets; whether a calibration runs is not asked |
| DevicePose.DevicePose.UpdatePose | driver/src/device/pose/device_pose.cpp:52-96 | The reported pose in each of the four cases |
| DevicePose.DevicePose.StartCalibration | driver/src/device/pose/device_pose.cpp:98-100 | What is frozen is the pose reported at this moment |
| DevicePose.DevicePose.CompleteCalibration | driver/src/device/pose/device_pose.cpp:110-121 | The new configuration and calibration state; the configuration is stored in any case |
| DevicePose.DevicePose.OnTrackingReference | driver/src/device/pose/device_pose.cpp:21-29 | Only a reference for the own role sets the controller |
| CalibrationRuns.ControllerIsLastReference | driver/src/device/pose/device_pose.cpp:21-29 | Over every run the hand hangs off the controller that was named last for its own role |
| DevicePose.DevicePose.OnUiRequest | driver/src/device/pose/device_pose.cpp:31-43 | A request without a start entry is refused and changes nothing |
| DevicePose.DevicePose.OnCalibrationButton | driver/src/device/drivers/knuckle_device_driver.cpp:60-67 | What a button sample does in each state |
| CalibrationTheorems.OffsetPoseAfterCompletion | driver/src/device/pose/pose_calibration.cpp:48-52 | At the controller pose of completion the new offset shows the frozen pose, scaled by the norm of the controller's quaternion |
| CalibrationTheorems.CompletionShowsFrozenPose | driver/src/device/pose/pose_calibration.cpp:31-55 | After a completion by the owner, tracked or not, the hand is shown exactly where it was frozen if and only if the controller is tracked and no radicand of its matrix is negative, or the frozen pose has no rotation and lies where the controller is, at the origin without tracking |
| CalibrationTheorems.ReadingsTurnIff | driver/src/util/driver_math.cpp:53-66 | If a rotation or its turned one is read back from its matrix, the readings turn by the same turn if and only if both are |
| CalibrationTheorems.HandMovesWithController | driver/src/device/pose/device_pose.cpp:74-83 | Moving a controller of any rotation by a turn and a shift moves the reported hand by the same motion if the controller's readings turn so, and turns the hand so, with a non-zero offset, only then |
| CalibrationRuns.OwnerIsLastStarter | driver/src/device/pose/pose_calibration.cpp:11-25 | Over every run the owner is the method that started a calibration last |
| CalibrationRuns.CalibrationEndsIffByLastStarter | driver/src/device/pose/pose_calibration.cpp:27-37 | Over every run an event ends a calibration if and only if it speaks for the method that started it last |
| CalibrationRuns.ForeignEndLeavesNoTrace | driver/src/device/pose/pose_calibration.cpp:27-37 | A cancel or a completion at any point of any run, on behalf of a method other than the last starter, can be taken out of the run without changing anything that follows |
| CalibrationRuns.ButtonNeverDisturbsUiCalibration | driver/src/device/drivers/knuckle_device_driver.cpp:60-67 | While a UI calibration runs, no number of button samples changes anything |
| CalibrationRuns.FrozenPoseIsStill | driver/src/device/pose/pose_calibration.cpp:16-22 | Over every run the frozen pose has no velocities |
| CalibrationRuns.FrozenPoseIsKept | driver/src/device/pose/device_pose.cpp:53 | As long as a calibration stays on, restarts included, the frozen pose is one and the same |
| CalibrationRuns.FrozenIsReportedAtStart | driver/src/device/pose/pose_calibration.cpp:11-25 | Over every run the pose shown during a calibration is the one reported at its fresh start, made motionless |
| CalibrationRuns.ReportedOverRuns | driver/src/device/pose/device_pose.cpp:52-96 | Over every run: velocity is the tracked controller's outside a calibration, else zero; the pose is valid and running if a controller is known, connected if it is tracked, at the fresh start during a calibration; angular velocity is zero and the driver spaces are not turned |
| CalibrationRuns.ReadsAreConstantWhileCalibrating | driver/src/device/pose/device_pose.cpp:53 | From any point of any run all pose reads during a calibration return one motionless pose |
| CalibrationRuns.NoJumpOnCompletionIff | driver/src/device/pose/device_pose.cpp:110-121 | Completing a running calibration leaves the hand where reads showed it just before if and only if the controller is tracked and unclamped, a frozen pose without rotation aside |
| CalibrationRuns.LostTrackingJumps | driver/src/device/pose/device_pose.cpp:59-72 | If tracking is lost when a calibration completes, a hand frozen with a rotation jumps to the origin and loses its rotation |
| CalibrationRuns.FrozenIsUnitIff | driver/src/device/pose/device_pose.cpp:52-96 | With a unit offset, what a start freezes is a unit quaternion if and only if the controller is known, its pose valid and no radicand of its matrix negative |
| CalibrationRuns.CalibrationGivesUnitIff | driver/src/device/pose/pose_calibration.cpp:11-55 | From a unit offset, starting and completing a calibration gives a unit offset if and only if it starts from a tracked controller and neither matrix has a negative radicand |
| CalibrationRuns.UnitThroughoutIff | driver/src/device/pose/pose_calibration.cpp:11-55 | Offset and frozen poses stay unit quaternions at every point of a run if and only if every fresh start is from a tracked, unclamped controller and every completion by the owner reads an unclamped matrix |
| CalibrationRuns.UnitOverRuns | driver/src/device/pose/pose_calibration.cpp:48-52 | Along such a run the offset is unit, and a reported rotation is unit if and only if a calibration is running or the controller is tracked and unclamped |
| CalibrationRuns.UntrackedStartLosesOrientation | driver/src/device/pose/device_pose.cpp:59-72 | From any state without a calibration, one that starts without a known controller, or with an invalid pose of it, leaves the zero quaternion as offset |
| EulerAngles.EulerIsProduct | driver/src/util/driver_math.cpp:9-24 | EulerToQuaternion is the product of the turns around z, y and x |
| EulerAngles.EulerIsUnit | driver/src/util/driver_math.cpp:9-24 | Its result is a unit quaternion |
| EulerAngles.EulerArguments | driver/src/util/driver_math.cpp:26-47 | What QuaternionToEuler computes from a unit quaternion is where the x axis goes and what goes to the z axis |
| EulerAngles.EulerRoundTripArguments | driver/src/util/driver_math.cpp:9-47 | On the quaternion of three angles, asin and atan2 receive the sine of the pitch, and sines and cosines of roll and yaw times the cosine of the pitch |
| EulerAngles.AnglesInRange | driver/src/util/driver_math.cpp:26-47 | Angles read from a unit quaternion are canonical: in range, with neither yaw nor roll at a pitch of a right angle |
| EulerAngles.AnglesReadBackIff | driver/src/util/driver_math.cpp:9-47 | Three angles come back from their quaternion if and only if they are canonical |
| PoseSettings.Settings.GetPoseConfiguration | driver/src/device/configuration/device_configuration.cpp:108-125 | The offset is loaded from the hand's own keys, yaw from z, pitch from y and roll from x |
| PoseSettings.Settings.SetPoseConfiguration | driver/src/device/configuration/device_configuration.cpp:127-143 | The offset is written to the hand's own six keys, all others being kept |
| PoseSettings.OwnSettings | driver/src/device/configuration/device_configuration.cpp:108-143 | Loading a hand reads its own six settings, position axis by axis, and saving it keeps the other hand's |
| PoseSettings.SaveOfLoadIff | driver/src/device/configuration/device_configuration.cpp:108-143 | Saving what was just loaded leaves every setting as it was if and only if the stored angles are canonical |
| PoseSettings.SteepPitchIsRewritten | driver/src/device/configuration/device_configuration.cpp:108-143 | A stored pitch of 180 degrees does not survive loading and saving |
| PoseSettings.PoleIsKeptIff | driver/src/util/driver_math.cpp:26-47 | Of a unit quaternion with a right-angle pitch the stored angles keep the rotation if and only if it has no x component |
| PoseSettings.LoadOfSaveIff | driver/src/device/configuration/device_configuration.cpp:108-143 | For every offset, loading what was saved gives the same position and a unit quaternion, and the same rotation if and only if the offset was a unit quaternion whose pitch is not a right angle or that has no x component |
| PoseSettings.PoleIsNotStorable | driver/src/util/driver_math.cpp:26-47 | The unit quaternion (0.5, 0.5, 0.5, -0.5) has a pitch of a right angle and does not meet that condition |
| PoseSettings.UntrackedOffsetIsNotReloaded | driver/src/device/pose/device_pose.cpp:110-121 | The zero quaternion that a calibration without tracking stores is reloaded as the identity |
| PoseSettings.ReloadedOffsetShowsSameHandIff | driver/src/device/pose/device_pose.cpp:74-83 | At every controller pose the reloaded offset, of whatever offset was saved, shows the hand at the same place, and turned the same way under exactly that condition |
| OscFormat.WordIsBigEndian | server/lib/miniosc/miniosc.h:222-223 | The bytes of a word are its digits to the base 256, the most significant first |
| OscFormat.LayoutInBytes | server/lib/miniosc/miniosc.h:102-109 | A bundle starts with #bundle and nine zero bytes; a string is padded by one to four zero bytes to whole words |
| OscFormat.TypeTags | server/lib/miniosc/miniosc.h:216-257 | Which type tags are known, which have no data, and which describe what kind of argument |
| OscRoundTrip.WordRoundTrip | server/lib/miniosc/miniosc.h:222-223 | A big-endian word is read back as it was written |
| OscRoundTrip.DecodeOfMessage | server/lib/miniosc/miniosc.h:208-262 | The OSC 1.0 decoder (sections "OSC Messages" and "OSC Type Tag String") recovers every well-formed message from its bytes |
| OscRoundTrip.DecodeOfBundle | server/lib/miniosc/miniosc.h:285-305 | The OSC 1.0 decoder (section "OSC Bundles") recovers every list of messages from the bytes of their bundle |
| OscRoundTrip.DecodeStopsAtZeroWord | server/lib/miniosc/miniosc.h:290-303 | A bundle with a size word of zero behind any messages does not decode, whatever comes after it |
| MiniOsc.Append | server/lib/miniosc/miniosc.h:102-109 | In place: padded data are written inside the buffer and the pointer moves on, or nothing is written and an overflow is reported |
| MiniOsc.EncodeArgument | server/lib/miniosc/miniosc.h:218-251 | In place: the data of one argument by its tag |
| MiniOsc.EncodeInternal | server/lib/miniosc/miniosc.h:208-262 | In place: a whole message, or what precedes the first error |
| MiniOsc.MessageContained | server/lib/miniosc/miniosc.h:102-109 | Whatever an encoding appends, failing or not, is whole words short of the last byte of the buffer |
| MiniOsc.MessageWrites | server/lib/miniosc/miniosc.h:208-262 | A well-formed message is written as its OSC 1.0 bytes if they fit, and overflows otherwise |
| MiniOsc.EncodingSucceedsIff | server/lib/miniosc/miniosc.h:208-262 | An encoding succeeds if and only if the message is well-formed and ends before the last byte of the buffer |
| MiniOsc.EncodingErrors | server/lib/miniosc/miniosc.h:208-262 | A missing slash or comma is refused at once, with nothing written; afterwards an unknown tag is refused unless the buffer overflows before |
| OscBundle.MoBundle.Add | server/lib/miniosc/miniosc.h:285-305 | In place: header, reserved size word, message and size word; a failing call keeps the place it had reached |
| OscBundle.MoBundle.Send | server/lib/miniosc/miniosc.h:308-313 | What is sent are the bytes of memory from the start of the buffer up to the place, even if that lies behind the buffer; an empty bundle is refused |
| OscBundleRuns.AddedWritesItsElement | server/lib/miniosc/miniosc.h:285-305 | One call, failing or not, writes nothing in front of its element and nothing behind its place, which stays on a word boundary |
| OscBundleRuns.PlaceStaysAligned | server/lib/miniosc/miniosc.h:285-305 | Over every run of calls the place is on a word boundary |
| OscBundleRuns.EarlierBytesNeverChange | server/lib/miniosc/miniosc.h:285-305 | Over every run of later calls, failing or not, the bytes in front of a place never change |
| OscBundleRuns.StaysInsideIff | server/lib/miniosc/miniosc.h:285-305 | A call leaves the place inside the buffer if and only if the size word that it reserves fits; a message never leads it out |
| OscBundleRuns.RunStaysInsideIff | server/lib/miniosc/miniosc.h:285-305 | After a run of calls, failing or not, the place is inside the buffer if and only if every call had room for its size word |
| OscBundleRuns.EmptyCallsLeaveBuffer | server/lib/miniosc/miniosc.h:285-305 | Calls with an empty address still reserve their size words: 381 of them on a zeroed bundle lead the place 4 bytes behind the buffer |
| OscBundleRuns.SuccessAddsElement | server/lib/miniosc/miniosc.h:285-305 | A successful call appends its message behind a length word equal to the message's size |
| OscBundleRuns.SuccessfulBundleDecodes | server/lib/miniosc/miniosc.h:285-305 | After any successful calls on a zeroed bundle the bytes up to the place decode to exactly their messages, in order |
| OscBundleRuns.FailureLeavesZeroWord | server/lib/miniosc/miniosc.h:285-305 | A failing call leaves the size word that it reserved at zero, directly behind the messages before it |
| OscBundleRuns.BundleDecodesIff | server/lib/miniosc/miniosc.h:285-313 | After any calls on a zeroed bundle what is sent, memory behind the buffer included, decodes if and only if no call failed, and then to the messages of the calls |
| OutputOsc.SplayCallsSucceed | server/src/services/output/output_osc.cpp:22-42 | The five splay messages always fit into the buffer |
| OutputOsc.Send | server/src/services/output/output_osc.cpp:22-42 | The bytes sent decode to five messages of one float, the splays of thumb to pinky, under /avatar/parameters/leftThumbSplay to leftPinkySplay for the left hand and rightThumbSplay to rightPinkySplay for the right |
| OscProcess.GetQBL | server/lib/miniosc/miniosc.h:111-126 | The length of the string at a pointer, counted from another one, and the step forward, or -1 without a NUL in time; it may read the memory behind the buffer |
| OscProcess.ReadHeader | server/lib/miniosc/miniosc.h:315-321 | Address and type tags, or a protocol error; the type tags may end behind the buffer |
| OscProcess.ProcessOne | server/lib/miniosc/miniosc.h:328-375 | In place: one type tag, its word turned around and its parameter pointers added |
| OscProcess.MemoryIsReadable | server/lib/miniosc/miniosc.h:111-126 | Reading the header of a message stays within twice the message's length and one word of memory, whatever that holds |
| OscProcess.ProcessInPlace | server/lib/miniosc/miniosc.h:315-378 | In place: a whole received message, for every content of the buffer and of the memory behind it, which stays as it is |
| OscProcess.ProcessedIsMessage | server/lib/miniosc/miniosc.h:315-378 | For any memory: what is reported starts with a slash and has a comma and known type tags only, and no byte behind the message ever changes |
| OscProcess.AcceptedTags | server/lib/miniosc/miniosc.h:328-375 | An unknown tag is refused as a parameter, all else that fails is a protocol error |
| OscProcess.CutOffWord | server/lib/miniosc/miniosc.h:328-366 | A number that ends behind the message, or a blob without a NUL inside it, is a protocol error |
| OscReceiving.ComesBack | server/lib/miniosc/miniosc.h:315-378 | A message without blobs and with a string only at the end is reported with the same address, type string and values, whatever the buffer holds behind it |
| OscReceiving.ComesBackIff | server/lib/miniosc/miniosc.h:340-355 | Received alone, or in front of memory without a NUL, a message without blobs is reported as it was sent if and only if no argument comes after a string |
| OscReceiving.AlwaysComesBackIff | server/lib/miniosc/miniosc.h:340-355 | With any fixed number of bytes behind it, a message without blobs is reported as it was sent whatever these bytes are, if and only if no argument comes after a string |
| OscReceiving.SentComesBackIff | server/lib/miniosc/miniosc.h:208-424 | What minioscEncodeInternal writes successfully is reported as it was sent from the 1536-byte buffer of minioscPoll, whatever it holds behind the message, if and only if no argument comes after a string and the message is longer than 8 bytes |
| OscReceiving.NumberAfterStringIsLost | server/lib/miniosc/miniosc.h:340-355 | The message /a with the string x and the number 1 is misreported in front of any memory without a NUL |
| OscReceiving.BlobComesBackIff | server/lib/miniosc/miniosc.h:356-366 | A message of numbers with a blob at its end is reported, the blob as a pointer to its size and one to its data, if and only if the blob has a NUL or is padded; otherwise it is refused |
| AnimLoader.UpperBound | driver/src/hand_tracking/anim_loader.cpp:140 | The binary search finds the first time later than the curl |
| AnimLoader.Bracketing | driver/src/hand_tracking/anim_loader.cpp:139-150 | The keyframes found bracket the curl; they are adjacent exactly before the last keyframe time |
| AnimLoader.BracketIsUnique | driver/src/hand_tracking/anim_loader.cpp:139-150 | The search finds the only bracket there is |
| AnimLoader.GetAnimationDataByBoneIndex | driver/src/hand_tracking/anim_loader.cpp:139-150 | The times and the bone's transforms at the two keyframes |
| Interpolation.IsNumberIff | driver/src/hand_tracking/hand_tracking.cpp:181 | The interpolation factor is a number if and only if the curl is not exactly the last keyframe time |
| Interpolation.CurveBetweenKeyframes | driver/src/hand_tracking/hand_tracking.cpp:181-194 | Every interpolated component lies between its two keyframes |
| Interpolation.CurveHitsKeyframes | driver/src/hand_tracking/hand_tracking.cpp:181-194 | The curve has each keyframe's value at its time, and the last one behind the last |
| Interpolation.LipschitzIff | driver/src/hand_tracking/hand_tracking.cpp:181-194 | The whole curve keeps to a speed if and only if each segment between keyframes does |
| HandTracking.TransformLeftBone | driver/src/hand_tracking/hand_tracking.cpp:103-137 | In place: the mirroring of one bone, for each kind of bone |
| HandTracking.SetTransformForBone | driver/src/hand_tracking/hand_tracking.cpp:166-204 | In place: one bone is posed from its curl, splay and hand alone, numbers or not, or left alone if the curl is not in [0, 1]; no other bone changes |
| HandTracking.GetAverageFingerCurlValue | driver/src/hand_tracking/hand_tracking.cpp:206-213 | The loop computes the average of the four joints |
| HandTracking.HasJoint | driver/src/hand_tracking/hand_tracking.cpp:225-229 | A finger's bone, counted from its finger's root, is one of the four joints |
| HandTheorems.SkeletonLayout | driver/src/hand_tracking/hand_tracking.cpp:28-98 | Which bones belong to which finger, auxiliary ones included, and which can be splayed, by number |
| HandTheorems.EmptyKeyframeRests | driver/src/hand_tracking/hand_tracking.cpp:166-194 | A bone with an empty keyframe takes rotation and translation of the model, the rotation's elements as x, y, z and w |
| HandTracking.HandTracking.ComputeBoneTransforms | driver/src/hand_tracking/hand_tracking.cpp:215-235 | In place: every bone of a finger is posed from its own joint, or the average for auxiliary bones; all other bones keep their pose, and so do all without a model |
| HandTheorems.NumbersIff | driver/src/hand_tracking/hand_tracking.cpp:166-204 | Orientation and position of a posed bone are numbers everywhere but at exactly the last keyframe time, and there if and only if the last keyframe leaves that part empty |
| HandTheorems.LerpNorm | driver/src/hand_tracking/hand_tracking.cpp:183-188 | The squared norm of an interpolated rotation, as a function of the angle between the keyframes |
| HandTheorems.SplayAndMirrorKeepNorm | driver/src/hand_tracking/hand_tracking.cpp:197-203 | Splaying and mirroring keep the norm of every orientation |
| HandTheorems.PosedOrientationNorm | driver/src/hand_tracking/hand_tracking.cpp:166-204 | With unit keyframe rotations on one side of each other, every posed orientation away from the last keyframe time has a squared norm in [1/2, 1], for every splay and either hand |
| HandTheorems.NormBoundIsReached | driver/src/hand_tracking/hand_tracking.cpp:183-188 | The lower bound is reached halfway exactly between orthogonal keyframes |
| HandTheorems.MirrorTwice | driver/src/hand_tracking/hand_tracking.cpp:103-137 | Mirroring twice gives the same pose |
| HandMirror.HandIsMirrored | driver/src/hand_tracking/hand_tracking.cpp:103-137 | From the wrist along a finger, a left hand moves every point to the mirror image of where the right hand does, whatever the poses of its bones |
| HandMirror.FingerIsMirrored | driver/src/hand_tracking/hand_tracking.cpp:103-137 | The same for one finger from its root bone on, the later bones of which are turned alike with inverted positions |
| HandMirror.PalmIsMirrored | driver/src/hand_tracking/hand_tracking.cpp:103-137 | The same for any chain of wrist and auxiliary bones |
| HandMirror.LeftBoneIsMirrored | driver/src/hand_tracking/hand_tracking.cpp:197-204 | The bones posed for a left hand are these mirror images, and the root bone is the same |
| HandTheorems.SplayTurnsAroundY | driver/src/hand_tracking/hand_tracking.cpp:197-200 | The splay turns a bone around its own y axis by 20 degrees times its value |
| HandTheorems.NotSplayed | driver/src/hand_tracking/hand_tracking.cpp:197-200 | Bones other than 2, 7, 12, 17 and 22 are not splayed, nor is any by a splay outside [-1, 1] |
| HandTheorems.ComponentsFollowCurves | driver/src/hand_tracking/hand_tracking.cpp:179-194 | Before splay and mirroring, each of the seven components of a fully animated bone follows its own curve through the keyframes |
| HandTheorems.PoseIsLipschitz | driver/src/hand_tracking/hand_tracking.cpp:166-204 | Between two curls, neither of them the last keyframe time, the pose of a fully animated bone, splayed and mirrored, moves no further than the fastest segments of its components allow: each position component by its own speed, the orientation by the four speeds together |
| HandTheorems.AbsentFingerStays | driver/src/hand_tracking/hand_tracking.cpp:166-235 | A finger whose joints are all -1 keeps all its bones, the auxiliary one included |
| GloveToHand.UnsentFingerStays | driver/src/hand_tracking/hand_tracking.cpp:166-235 | A finger with no key in the glove's text keeps all its bones |
| GloveToHand.JointPosesBone | driver/src/hand_tracking/hand_tracking.cpp:215-235 | Joint j of a finger, by its name in the text, poses the bone j behind bone 2, 6, 11, 16 or 21, with the finger's splay |
| GloveToHand.AverageOfJointsPosesAuxBone | driver/src/hand_tracking/hand_tracking.cpp:206-235 | The average of a finger's four joints, by their names in the text, poses its auxiliary bone, 26 to 30 |
| GloveToHand.SentJointPosesItsBone | driver/src/hand_tracking/hand_tracking.cpp:215-235 | A joint with a key in the text sets its own bone, from the number sent over the analog range and its finger's splay, for every number |
| GloveToHand.SentJointGivesNumbersIff | driver/src/hand_tracking/hand_tracking.cpp:166-204 | A number within the analog range poses the joint's bone with numbers if and only if over the range it is not the last keyframe time, an empty last keyframe aside; a larger number leaves the bone alone |
| GloveToHand.FullRangeIsNotANumber | driver/src/hand_tracking/hand_tracking.cpp:181 | With a last keyframe at 1, a joint sent as the full analog range whose bone is turned by that keyframe gets no numbers |
| GloveToHand.FullIndexJointIsSent | server/src/communication/encoding/alpha_encoding_service.cpp:161-171 | The text (BAA)4095 decodes, and sends the full range of 4095 for the first joint of the index finger |

## Left out

- Win32, Bluetooth, serial and socket calls, OpenVR calls, the HTTP servers, the overlay, JSON parsing, logging, device discovery, probers and thread start and join: only their results appear, as inputs.
- The wait for a character event and the port checks in front of the serial byte loop (service_serial_win.cpp:90-110), and the connection check of the Bluetooth one.
- Floating-point rounding and overflow: arithmetic is over the reals; of NaN only the division of zero by zero in the interpolation is modelled. The range errors of std::stof and std::stoi on digit strings are modelled.
- The `%.2f` printing of haptic outputs: the three texts are data of the output, and what is read of them are their characters.
- glTF loading, `map_rotation` and `map_right_transform`: keyframe times (strictly increasing, the first not above 0) and transforms are inputs. `LoadDefaultSkeletonByHand` would only add an easy member.
- The array of tracked poses that GetControllerPose indexes: the pose of the hand's controller is an input of each call.
- The named-pipe struct versions and the 50 ms limiter of OutputOSCServer::Send.
- Bundles inside bundles: the encoder writes none, and the decoder of the format reads messages only.
- `minioscPoll`: its socket calls and its bundle loop, which does not advance; bundles are read by the decoder of the specification instead.
- AlphaDecoder.DecodePeripheralPacket: the analog range is positive, as the driver's configuration replaces zero (device_configuration.cpp:75-78); a negative range is not modelled.
- CommunicationManager.HardwareCommunicationManager.CommunicationThread: appending, writing and clearing the queue are atomic steps; the unlocked string itself may be corrupted by concurrent access, which is not modelled.
- QueueReading.EveryWriteTellsLastOutputIff: the texts that %.2f prints have none of the letters A to E.
- DevicePose.DevicePose.CompleteCalibration: the test for a negative controller id is left out, as the id is unsigned.
- MiniOsc.EncodeInternal: the arguments are those that the type tags take from the argument list, and blobs have non-negative lengths below 2^31; null pointers are not modelled.
- OscProcess.ProcessInPlace: at least as many bytes of memory as the message is long, and four more, follow the buffer. The parameter array is taken to be large enough. Nothing is returned after the callback, so no return value is stated.
- OscReceiving.ComesBackIff: messages with blobs are left out, but for one at the end (`BlobComesBackIff`); a blob takes two parameters and is read as a string, so that where reading goes on behind it depends on where its data, counted from the start of the message, has a zero byte.
- OscReceiving.AlwaysComesBackIff: with blobs left out as above; before bytes with a NUL, a string after a string may happen to be found in them.
- EulerAngles.AnglesReadBackIff: cosine, sine, atan2 and asin enter through the properties listed in EulerAngles.IsTrigonometry.
