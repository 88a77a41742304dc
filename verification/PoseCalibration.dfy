/**
 Poses, pose offsets and the calibration object of pose_calibration.cpp.
 The object is the class PoseCalibration; Calibration is its abstract value.
 */
module PoseCalibration {
  import opened DriverMath

  /** Unset is the zero of a value-initialised DriverPose_t, which names no tracking result. */
  datatype TrackingResult = Unset | Uninitialized | RunningOk

  datatype DriverPose = DriverPose(
    poseIsValid: bool,
    deviceIsConnected: bool,
    result: TrackingResult,
    qWorldFromDriverRotation: Quaternion,
    qDriverFromHeadRotation: Quaternion,
    vecPosition: Vector3,
    vecVelocity: Vector3,
    vecAngularVelocity: Vector3,
    qRotation: Quaternion)

  const ZERO_POSE := DriverPose(
    false, false, Unset, ZERO_QUATERNION, ZERO_QUATERNION, ZERO_VECTOR, ZERO_VECTOR, ZERO_VECTOR, ZERO_QUATERNION)

  const IDENTITY_MATRIX := Matrix34(1.0, 0.0, 0.0, 0.0, 0.0, 1.0, 0.0, 0.0, 0.0, 0.0, 1.0, 0.0)

  /** What the runtime reports for a tracked controller, with the roots that sqrt takes of its matrix. */
  datatype TrackedReading = TrackedReading(isValid: bool, matrix: Matrix34, roots: Roots, velocity: Vector3)

  type TrackedDevicePose = p: TrackedReading | IsRootsOf(p.roots, p.matrix)
    witness TrackedReading(true, IDENTITY_MATRIX, Roots(2.0, 0.0, 0.0, 0.0), ZERO_VECTOR)

  datatype PoseConfiguration = PoseConfiguration(offsetOrientation: Quaternion, offsetPosition: Vector3)

  datatype CalibrationMethod = Hardware | Ui | NoMethod

  datatype Calibration = Calibration(maintainPose: DriverPose, isCalibrating: bool, owner: CalibrationMethod)

  function Orientation(c: TrackedDevicePose): Quaternion {
    MatrixToOrientation(c.matrix, c.roots)
  }

  function Position(c: TrackedDevicePose): Vector3 {
    MatrixToPosition(c.matrix)
  }

  function Started(pose: DriverPose, caller: CalibrationMethod): Calibration {
    Calibration(pose.(vecVelocity := ZERO_VECTOR, vecAngularVelocity := ZERO_VECTOR), true, caller)
  }

  function Ended(c: Calibration, caller: CalibrationMethod): Calibration {
    if c.owner == caller then c.(isCalibrating := false) else c
  }

  /** The offsets that make the controller show the frozen pose. */
  function Offsets(frozen: DriverPose, c: TrackedDevicePose): PoseConfiguration {
    var back := Conjugate(Orientation(c));
    PoseConfiguration(
      Product(back, frozen.qRotation),
      Rotate(Subtract(frozen.vecPosition, Position(c)), back))
  }

  class PoseCalibration {
    var maintainPose: DriverPose
    var isCalibrating: bool
    var calibrationMethod: CalibrationMethod

    ghost function Value(): Calibration
      reads this
    {
      Calibration(maintainPose, isCalibrating, calibrationMethod)
    }

    /** make_unique value-initialises: every field is zero, and method zero is Hardware. */
    constructor ()
      ensures Value() == Calibration(ZERO_POSE, false, Hardware)
    {
      maintainPose := ZERO_POSE;
      isCalibrating := false;
      calibrationMethod := Hardware;
    }

    method StartCalibration(pose: DriverPose, caller: CalibrationMethod)
      modifies this
      ensures Value() == Started(pose, caller)
    {
      calibrationMethod := caller;
      maintainPose := pose;
      maintainPose := maintainPose.(vecVelocity := ZERO_VECTOR);
      maintainPose := maintainPose.(vecAngularVelocity := ZERO_VECTOR);
      isCalibrating := true;
    }

    method CancelCalibration(caller: CalibrationMethod)
      modifies this
      ensures Value() == Ended(old(Value()), caller)
    {
      if calibrationMethod == caller {
        isCalibrating := false;
      }
    }

    /** Only the owning method completes; whether a calibration is running is not asked. */
    method CompleteCalibration(controllerPose: TrackedDevicePose, configuration: PoseConfiguration,
                               isRightHand: bool, caller: CalibrationMethod)
      returns (result: PoseConfiguration)
      modifies this
      ensures Value() == Ended(old(Value()), caller)
      ensures result == if old(calibrationMethod) == caller then Offsets(old(maintainPose), controllerPose) else configuration
    {
      if calibrationMethod != caller {
        return configuration;
      }
      isCalibrating := false;
      var newPosition := MatrixToPosition(controllerPose.matrix);
      var newRotation := MatrixToOrientation(controllerPose.matrix, controllerPose.roots);
      var lastPosition := maintainPose.vecPosition;
      var transformOrientation := Product(Conjugate(newRotation), maintainPose.qRotation);
      var transformPosition := Rotate(Subtract(lastPosition, newPosition), Conjugate(newRotation));
      result := PoseConfiguration(transformOrientation, transformPosition);
    }
  }
}
