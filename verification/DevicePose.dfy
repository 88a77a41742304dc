/**
 The pose of a hand (device_pose.cpp): a tracked controller's pose plus the calibrated offset,
 frozen while a calibration runs.
 The class DevicePose holds the state; PoseState is its abstract value.
 */
module DevicePose {
  import opened DriverMath
  import opened NativeTypes
  import opened PoseCalibration

  datatype ControllerRole = LeftHand | RightHand | OtherRole

  datatype PoseState = PoseState(
    role: ControllerRole,
    configuration: PoseConfiguration,
    controllerId: uint32,
    calibration: Calibration)

  function InitialState(role: ControllerRole, configuration: PoseConfiguration): PoseState {
    PoseState(role, configuration, 0, Calibration(ZERO_POSE, false, Hardware))
  }

  const IDLE_POSE := ZERO_POSE.(
    qDriverFromHeadRotation := Quaternion(1.0, 0.0, 0.0, 0.0),
    qWorldFromDriverRotation := Quaternion(1.0, 0.0, 0.0, 0.0))

  /** The pose of a hand that hangs off a tracked controller by a fixed offset. */
  function OffsetPose(o: PoseConfiguration, c: TrackedDevicePose): DriverPose {
    IDLE_POSE.(
      qRotation := Product(Orientation(c), o.offsetOrientation),
      vecPosition := Add(Position(c), Rotate(o.offsetPosition, Orientation(c))),
      vecVelocity := c.velocity,
      poseIsValid := true,
      deviceIsConnected := true,
      result := RunningOk)
  }

  /** The pose reported in state s, when the runtime reports c for the hand's controller. */
  function Reported(s: PoseState, c: TrackedDevicePose): DriverPose {
    if s.calibration.isCalibrating then s.calibration.maintainPose
    else if s.controllerId < 1 then IDLE_POSE.(result := Uninitialized)
    else if !c.isValid then IDLE_POSE.(result := RunningOk, poseIsValid := true)
    else OffsetPose(s.configuration, c)
  }

  function Start(s: PoseState, caller: CalibrationMethod, c: TrackedDevicePose): PoseState {
    s.(calibration := Started(Reported(s, c), caller))
  }

  function Complete(s: PoseState, caller: CalibrationMethod, c: TrackedDevicePose): PoseState {
    s.(calibration := Ended(s.calibration, caller),
       configuration := if s.calibration.owner == caller then Offsets(s.calibration.maintainPose, c) else s.configuration)
  }

  function Cancel(s: PoseState, caller: CalibrationMethod): PoseState {
    s.(calibration := Ended(s.calibration, caller))
  }

  function Track(s: PoseState, role: ControllerRole, id: uint32): PoseState {
    if role == s.role then s.(controllerId := id) else s
  }

  /** The request body of a UI calibration call; None when it has no "start" entry. */
  datatype UiRequest = NoStartEntry | StartEntry(start: bool)

  /**
   Each method that consults the runtime receives the controller pose it reports; the entries
   GetRawTrackedDevicePoses fills for other devices play no part.
   */
  class DevicePose {
    var configuration: PoseConfiguration
    const role: ControllerRole
    const calibration: PoseCalibration
    var controllerId: uint32

    /** What was last handed to SetPoseConfiguration, if anything. */
    var saved: seq<PoseConfiguration>

    ghost function Value(): PoseState
      reads this, calibration
    {
      PoseState(role, configuration, controllerId, calibration.Value())
    }

    constructor (role: ControllerRole, configuration: PoseConfiguration)
      ensures Value() == InitialState(role, configuration)
      ensures fresh(calibration) && saved == []
    {
      this.role := role;
      this.configuration := configuration;
      calibration := new PoseCalibration();
      controllerId := 0;
      saved := [];
    }

    method UpdatePose(c: TrackedDevicePose) returns (result: DriverPose)
      ensures result == Reported(Value(), c)
    {
      if calibration.isCalibrating {
        return calibration.maintainPose;
      }
      result := ZERO_POSE.(
        qDriverFromHeadRotation := Quaternion(1.0, 0.0, 0.0, 0.0),
        qWorldFromDriverRotation := Quaternion(1.0, 0.0, 0.0, 0.0));
      if controllerId < 1 {
        result := result.(poseIsValid := false, result := Uninitialized);
        return;
      }
      if !c.isValid {
        result := result.(result := RunningOk, poseIsValid := true);
        return;
      }
      var controllerPosition := MatrixToPosition(c.matrix);
      var controllerOrientation := MatrixToOrientation(c.matrix, c.roots);
      result := result.(qRotation := Product(controllerOrientation, configuration.offsetOrientation));
      var position := Add(controllerPosition, Rotate(configuration.offsetPosition, controllerOrientation));
      result := result.(vecPosition := position);
      result := result.(vecVelocity := c.velocity);
      result := result.(poseIsValid := true, deviceIsConnected := true);
      result := result.(result := RunningOk);
    }

    method StartCalibration(caller: CalibrationMethod, c: TrackedDevicePose)
      modifies calibration
      ensures Value() == Start(old(Value()), caller, c)
    {
      var pose := UpdatePose(c);
      calibration.StartCalibration(pose, caller);
    }

    method CancelCalibration(caller: CalibrationMethod)
      modifies calibration
      ensures Value() == Cancel(old(Value()), caller)
    {
      calibration.CancelCalibration(caller);
    }

    /** The source first tests controllerId < 0, which an unsigned id never satisfies. */
    method CompleteCalibration(caller: CalibrationMethod, c: TrackedDevicePose)
      modifies this, calibration
      ensures Value() == Complete(old(Value()), caller, c)
      ensures saved == old(saved) + [configuration]
    {
      configuration := calibration.CompleteCalibration(c, configuration, role == RightHand, caller);
      saved := saved + [configuration];
    }

    /** The callback for discovered tracking references. */
    method OnTrackingReference(role: ControllerRole, id: uint32)
      modifies this
      ensures Value() == Track(old(Value()), role, id)
      ensures saved == old(saved)
    {
      if role == this.role {
        controllerId := id;
      }
    }

    /** The callback for pose_calibration requests of the UI. */
    method OnUiRequest(request: UiRequest, c: TrackedDevicePose) returns (accepted: bool)
      modifies this, calibration
      ensures accepted == request.StartEntry?
      ensures Value() ==
        if !accepted then old(Value())
        else if request.start then Start(old(Value()), Ui, c)
        else Complete(old(Value()), Ui, c)
    {
      if request.NoStartEntry? {
        return false;
      }
      if request.start {
        StartCalibration(Ui, c);
      } else {
        CompleteCalibration(Ui, c);
      }
      return true;
    }

    /** What the glove's input callback does with the calibration button (knuckle_device_driver.cpp). */
    method OnCalibrationButton(pressed: bool, c: TrackedDevicePose)
      modifies this, calibration
      ensures Value() == Press(old(Value()), pressed, c)
    {
      if pressed {
        if !calibration.isCalibrating {
          StartCalibration(Hardware, c);
        }
      } else if calibration.isCalibrating {
        CompleteCalibration(Hardware, c);
      }
    }
  }

  function Press(s: PoseState, pressed: bool, c: TrackedDevicePose): PoseState {
    if pressed && !s.calibration.isCalibrating then Start(s, Hardware, c)
    else if !pressed && s.calibration.isCalibrating then Complete(s, Hardware, c)
    else s
  }
}
