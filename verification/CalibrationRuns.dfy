/**
 Calibration over whole runs: any interleaving of calibration-button samples, UI requests,
 cancels, changes of the tracking reference and pose reads.
 */
module CalibrationRuns {
  import opened NativeTypes
  import opened DriverMath
  import opened QuaternionAlgebra
  import opened TrackedOrientation
  import opened PoseCalibration
  import opened DevicePose
  import opened CalibrationTheorems

  datatype PoseEvent =
    | ButtonSample(pressed: bool, controller: TrackedDevicePose)
    | UiCall(request: UiRequest, controller: TrackedDevicePose)
    | CancelCall(caller: CalibrationMethod)
    | TrackingReference(role: ControllerRole, id: uint32)
    | PoseRead(controller: TrackedDevicePose)

  function Step(s: PoseState, e: PoseEvent): PoseState {
    match e
    case ButtonSample(pressed, c) => Press(s, pressed, c)
    case UiCall(NoStartEntry, _) => s
    case UiCall(StartEntry(start), c) => if start then Start(s, Ui, c) else Complete(s, Ui, c)
    case CancelCall(caller) => Cancel(s, caller)
    case TrackingReference(role, id) => Track(s, role, id)
    case PoseRead(_) => s
  }

  function Run(s: PoseState, es: seq<PoseEvent>): PoseState {
    if es == [] then s else Step(Run(s, es[..|es| - 1]), es[|es| - 1])
  }

  lemma RunAppend(s: PoseState, es: seq<PoseEvent>, e: PoseEvent)
    ensures Run(s, es + [e]) == Step(Run(s, es), e)
  {
    assert (es + [e])[..|es|] == es;
  }

  // ----- who started, who may end -----

  datatype Party = Nobody | By(caller: CalibrationMethod)

  /** The method that event e starts a calibration for in state s. */
  function Starter(s: PoseState, e: PoseEvent): Party {
    match e
    case ButtonSample(pressed, _) => if pressed && !s.calibration.isCalibrating then By(Hardware) else Nobody
    case UiCall(StartEntry(start), _) => if start then By(Ui) else Nobody
    case _ => Nobody
  }

  /** The method on whose behalf event e asks to end a calibration. */
  function Ender(e: PoseEvent): Party {
    match e
    case ButtonSample(pressed, _) => if pressed then Nobody else By(Hardware)
    case UiCall(StartEntry(start), _) => if start then Nobody else By(Ui)
    case CancelCall(caller) => By(caller)
    case _ => Nobody
  }

  /** The method of the last start in a run. */
  function LastStarter(s: PoseState, es: seq<PoseEvent>): Party {
    if es == [] then Nobody
    else
      var before := es[..|es| - 1];
      var p := Starter(Run(s, before), es[|es| - 1]);
      if p.By? then p else LastStarter(s, before)
  }

  lemma {:induction false} OwnerIsLastStarter(role: ControllerRole, o: PoseConfiguration, es: seq<PoseEvent>)
    ensures var s := Run(InitialState(role, o), es);
      var p := LastStarter(InitialState(role, o), es);
      && s.calibration.owner == (if p.By? then p.caller else Hardware)
      && (s.calibration.isCalibrating ==> p.By?)
  {
    if es != [] {
      OwnerIsLastStarter(role, o, es[..|es| - 1]);
    }
  }

  /** A running calibration is ended by an event exactly when the event speaks for the method that started it last. */
  lemma {:induction false} CalibrationEndsIffByLastStarter(role: ControllerRole, o: PoseConfiguration, es: seq<PoseEvent>, e: PoseEvent)
    requires Run(InitialState(role, o), es).calibration.isCalibrating
    ensures !Run(InitialState(role, o), es + [e]).calibration.isCalibrating <==> Ender(e) == LastStarter(InitialState(role, o), es)
  {
    RunAppend(InitialState(role, o), es, e);
    OwnerIsLastStarter(role, o, es);
  }

  lemma {:induction false} RunConcat(s: PoseState, es: seq<PoseEvent>, more: seq<PoseEvent>)
    ensures Run(s, es + more) == Run(Run(s, es), more)
  {
    if more == [] {
      assert es + more == es;
    } else {
      var earlier := more[..|more| - 1];
      RunConcat(s, es, earlier);
      assert (es + more)[..|es + more| - 1] == es + earlier;
      hide Step;
    }
  }

  /**
   An end that is asked for on behalf of any other method than the one that started last leaves no
   trace: taking it out of a run changes nothing that follows.
   */
  lemma ForeignEndLeavesNoTrace(role: ControllerRole, o: PoseConfiguration, es: seq<PoseEvent>, e: PoseEvent, more: seq<PoseEvent>)
    requires Ender(e).By? && Ender(e) != LastStarter(InitialState(role, o), es)
    ensures Run(InitialState(role, o), es + [e] + more) == Run(InitialState(role, o), es + more)
  {
    var s := InitialState(role, o);
    OwnerIsLastStarter(role, o, es);
    ForeignEndIsIdle(Run(s, es), e);
    RunAppend(s, es, e);
    RunConcat(s, es + [e], more);
    RunConcat(s, es, more);
  }

  lemma ForeignEndIsIdle(s: PoseState, e: PoseEvent)
    requires Ender(e).By? && (Ender(e).caller != s.calibration.owner || (!s.calibration.isCalibrating && Ender(e).caller == Hardware))
    ensures Step(s, e) == s
  {}

  /** While a UI calibration runs, no number of button samples changes anything. */
  lemma {:induction false} ButtonNeverDisturbsUiCalibration(s: PoseState, es: seq<PoseEvent>)
    requires s.calibration.isCalibrating && s.calibration.owner == Ui
    requires forall e <- es :: e.ButtonSample?
    ensures Run(s, es) == s
  {
    if es != [] {
      ButtonNeverDisturbsUiCalibration(s, es[..|es| - 1]);
    }
  }

  // ----- the frozen pose -----

  ghost predicate Still(p: DriverPose) {
    p.vecVelocity == ZERO_VECTOR && p.vecAngularVelocity == ZERO_VECTOR
  }

  lemma {:induction false} FrozenPoseIsStill(role: ControllerRole, o: PoseConfiguration, es: seq<PoseEvent>)
    ensures Still(Run(InitialState(role, o), es).calibration.maintainPose)
  {
    if es != [] {
      FrozenPoseIsStill(role, o, es[..|es| - 1]);
    }
  }

  ghost predicate CalibratingThroughout(s: PoseState, es: seq<PoseEvent>) {
    forall k :: 0 <= k <= |es| ==> Run(s, es[..k]).calibration.isCalibrating
  }

  lemma {:induction false} FrozenPoseIsKept(s: PoseState, es: seq<PoseEvent>)
    requires Still(s.calibration.maintainPose)
    requires CalibratingThroughout(s, es)
    ensures Run(s, es).calibration.isCalibrating
    ensures Run(s, es).calibration.maintainPose == s.calibration.maintainPose
  {
    assert es[..|es|] == es;
    if es != [] {
      var before := es[..|es| - 1];
      forall k | 0 <= k <= |before| ensures Run(s, before[..k]).calibration.isCalibrating {
        assert before[..k] == es[..k];
      }
      FrozenPoseIsKept(s, before);
    }
  }

  /**
   From any point of any run, as long as a calibration stays on - restarts by the other method
   included - every pose read returns one and the same motionless pose.
   */
  lemma ReadsAreConstantWhileCalibrating(role: ControllerRole, o: PoseConfiguration, es: seq<PoseEvent>, more: seq<PoseEvent>,
                                         c: TrackedDevicePose, d: TrackedDevicePose)
    requires CalibratingThroughout(Run(InitialState(role, o), es), more)
    ensures var s := Run(InitialState(role, o), es);
      && Reported(Run(s, more), d) == Reported(s, c)
      && Still(Reported(s, c))
  {
    var s := Run(InitialState(role, o), es);
    FrozenPoseIsStill(role, o, es);
    FrozenPoseIsKept(s, more);
    assert more[..0] == [];
  }

  /**
   Completing a running calibration leaves the hand where reads showed it just before if and only if
   the controller is tracked and unclamped, a frozen pose without rotation aside. If tracking is lost
   at that moment, the hand jumps.
   */
  lemma NoJumpOnCompletionIff(s: PoseState, e: PoseEvent)
    requires s.calibration.isCalibrating
    requires e.ButtonSample? || e.UiCall?
    requires Ender(e) == By(s.calibration.owner)
    ensures var c := e.controller;
      var before, after := Reported(s, c), Reported(Step(s, e), c);
      && !Step(s, e).calibration.isCalibrating
      && (ShownAt(after, before)
          <==> ((Tracked(s, c) && RadicandsNonNegative(c.matrix)) || WithoutRotation(before, if Tracked(s, c) then Position(c) else ZERO_VECTOR)))
  {
    CompletionShowsFrozenPose(s, s.calibration.owner, e.controller);
    hide OffsetPose, Offsets, RadicandsNonNegative, ShownAt, Position;
  }

  /** If tracking is lost when a calibration completes, a hand with a rotation jumps to the origin and has none. */
  lemma LostTrackingJumps(s: PoseState, e: PoseEvent)
    requires s.calibration.isCalibrating && s.calibration.maintainPose.qRotation != ZERO_QUATERNION
    requires e.ButtonSample? || e.UiCall?
    requires Ender(e) == By(s.calibration.owner) && !Tracked(s, e.controller)
    ensures !ShownAt(Reported(Step(s, e), e.controller), Reported(s, e.controller))
    ensures WithoutRotation(Reported(Step(s, e), e.controller), ZERO_VECTOR)
  {
    NoJumpOnCompletionIff(s, e);
    hide Offsets, OffsetPose;
  }

  // ----- unit quaternions over runs -----

  /** The reading is of a tracked controller, and its matrix is read as a unit quaternion. */
  ghost predicate GoodStart(s: PoseState, c: TrackedDevicePose) {
    Tracked(s, c) && RadicandsNonNegative(c.matrix)
  }

  lemma ProductIsOne(m: real, n: real)
    requires m >= 1.0
    ensures n == 1.0 ==> (m * n == 1.0 <==> m == 1.0)
  {}

  lemma UnitTimes(p: Quaternion, q: Quaternion)
    requires NormSquared(p) >= 1.0 && IsUnit(q)
    ensures IsUnit(Product(p, q)) <==> IsUnit(p)
    ensures IsUnit(Product(Conjugate(p), q)) <==> IsUnit(p)
  {
    hide NormSquared, Product, Conjugate;
    NormOfProduct(p, q);
    NormOfConjugate(p);
    NormOfProduct(Conjugate(p), q);
    ProductIsOne(NormSquared(p), NormSquared(q));
  }

  /** What a fresh start freezes is a unit quaternion exactly if it starts well. */
  lemma FrozenIsUnitIff(s: PoseState, c: TrackedDevicePose)
    requires !s.calibration.isCalibrating && IsUnit(s.configuration.offsetOrientation)
    ensures IsUnit(Reported(s, c).qRotation) <==> GoodStart(s, c)
  {
    hide Product, MatrixToOrientation, RadicandsNonNegative, Rotate, MatrixToPosition;
    OrientationIsUnitIff(c.matrix, c.roots);
    ZeroIsNotUnit();
    hide NormSquared;
    UnitTimes(Orientation(c), s.configuration.offsetOrientation);
  }

  lemma ZeroIsNotUnit()
    ensures !IsUnit(ZERO_QUATERNION)
  {}

  /** What a completion makes of a unit frozen pose is a unit offset exactly if no radicand is clamped. */
  lemma CompletedIsUnitIff(frozen: DriverPose, c: TrackedDevicePose)
    requires IsUnit(frozen.qRotation)
    ensures IsUnit(Offsets(frozen, c).offsetOrientation) <==> RadicandsNonNegative(c.matrix)
  {
    hide Product, MatrixToOrientation, RadicandsNonNegative, Conjugate, Rotate;
    OrientationIsUnitIff(c.matrix, c.roots);
    hide NormSquared;
    UnitTimes(Orientation(c), frozen.qRotation);
  }

  /** What a completion makes of any frozen pose: the squared norms multiply. */
  lemma CompletedNorm(frozen: DriverPose, c: TrackedDevicePose)
    ensures NormSquared(Offsets(frozen, c).offsetOrientation) == NormSquared(Orientation(c)) * NormSquared(frozen.qRotation)
  {
    hide Product, NormSquared, MatrixToOrientation, Conjugate, Rotate;
    NormOfConjugate(Orientation(c));
    NormOfProduct(Conjugate(Orientation(c)), frozen.qRotation);
  }

  lemma NormsAreOne(m: real, n: real)
    requires m >= 1.0 && (n >= 1.0 || n == 0.0)
    ensures m * n == 1.0 <==> m == 1.0 && n == 1.0
  {
    if n > 1.0 {
      assert (m - 1.0) * n >= 0.0;
    }
  }

  /** The frozen pose of a fresh start has no rotation at all, or one whose norm is at least 1. */
  lemma FrozenNorm(s: PoseState, c: TrackedDevicePose)
    requires !s.calibration.isCalibrating && IsUnit(s.configuration.offsetOrientation)
    ensures var n := NormSquared(Reported(s, c).qRotation);
      if s.controllerId >= 1 && c.isValid then n >= 1.0 else Reported(s, c).qRotation == ZERO_QUATERNION && n == 0.0
  {
    ZeroNorm();
    hide Product, MatrixToOrientation, NormSquared, Rotate, MatrixToPosition, IsUnit;
    OrientedNorm(c, s.configuration.offsetOrientation);
  }

  lemma ZeroNorm()
    ensures NormSquared(ZERO_QUATERNION) == 0.0
  {}

  lemma OrientedNorm(c: TrackedDevicePose, q: Quaternion)
    requires IsUnit(q)
    ensures NormSquared(Product(Orientation(c), q)) >= 1.0
  {
    OrientationIsUnitIff(c.matrix, c.roots);
    hide Product, NormSquared, MatrixToOrientation, RadicandsNonNegative;
    NormOfProduct(Orientation(c), q);
    assert NormSquared(Orientation(c)) * 1.0 == NormSquared(Orientation(c));
  }

  /** From a unit offset, starting and completing a calibration gives a unit offset exactly if both controller readings are good. */
  lemma CalibrationGivesUnitIff(s: PoseState, caller: CalibrationMethod, c: TrackedDevicePose, d: TrackedDevicePose)
    requires !s.calibration.isCalibrating && IsUnit(s.configuration.offsetOrientation)
    ensures IsUnit(Complete(Start(s, caller, c), caller, d).configuration.offsetOrientation)
       <==> GoodStart(s, c) && RadicandsNonNegative(d.matrix)
  {
    hide Product, MatrixToOrientation, RadicandsNonNegative, Reported, Offsets, NormSquared;
    var frozen := Started(Reported(s, c), caller).maintainPose;
    OrientationIsUnitIff(d.matrix, d.roots);
    FrozenIsUnitIff(s, c);
    FrozenNorm(s, c);
    CompletedNorm(frozen, d);
    NormsAreOne(NormSquared(Orientation(d)), NormSquared(frozen.qRotation));
  }

  /** Without a tracked controller at the start, whether none is known or its pose is not valid, the offset becomes the zero quaternion. */
  lemma UntrackedStartLosesOrientation(s: PoseState, caller: CalibrationMethod, c: TrackedDevicePose, d: TrackedDevicePose)
    requires !s.calibration.isCalibrating
    ensures s.controllerId < 1 || !c.isValid ==>
      Complete(Start(s, caller, c), caller, d).configuration.offsetOrientation == ZERO_QUATERNION
  {
    ProductWithZero(Conjugate(Orientation(d)));
    hide Product, Conjugate, MatrixToOrientation, Rotate;
  }

  lemma ProductWithZero(q: Quaternion)
    ensures Product(q, ZERO_QUATERNION) == ZERO_QUATERNION
  {}

  /** The event starts a calibration and none was running; a start while one is running keeps the frozen pose. */
  ghost predicate FreshStart(s: PoseState, e: PoseEvent) {
    Starter(s, e).By? && !s.calibration.isCalibrating
  }

  /** The event completes the calibration of the owner. */
  ghost predicate Completes(s: PoseState, e: PoseEvent) {
    match e
    case ButtonSample(pressed, _) => !pressed && s.calibration.isCalibrating && s.calibration.owner == Hardware
    case UiCall(StartEntry(start), _) => !start && s.calibration.owner == Ui
    case _ => false
  }

  /** A fresh start is from a tracked controller, and no matrix that is used is clamped. */
  ghost predicate Good(s: PoseState, e: PoseEvent) {
    && (FreshStart(s, e) ==> GoodStart(s, e.controller))
    && (Completes(s, e) ==> RadicandsNonNegative(e.controller.matrix))
  }

  /** The offset is a unit quaternion, and so is every frozen pose that may still be used. */
  ghost predicate UnitState(s: PoseState) {
    && IsUnit(s.configuration.offsetOrientation)
    && (s.calibration.isCalibrating || s.calibration.owner == Ui ==> IsUnit(s.calibration.maintainPose.qRotation))
  }

  lemma UnitStepIff(s: PoseState, e: PoseEvent)
    requires UnitState(s)
    ensures UnitState(Step(s, e)) <==> Good(s, e)
  {
    hide NormSquared, Product, MatrixToOrientation, RadicandsNonNegative, Conjugate, Offsets, Reported;
    if FreshStart(s, e) {
      FrozenIsUnitIff(s, e.controller);
    } else if Starter(s, e).By? {
      RestartKeepsFrozen(s, e.controller);
    }
    if Completes(s, e) {
      CompletedIsUnitIff(s.calibration.maintainPose, e.controller);
    }
  }

  lemma RestartKeepsFrozen(s: PoseState, c: TrackedDevicePose)
    requires s.calibration.isCalibrating
    ensures Reported(s, c) == s.calibration.maintainPose
  {}

  ghost predicate UnitThroughout(s: PoseState, es: seq<PoseEvent>) {
    UnitState(Run(s, es)) && (es != [] ==> UnitThroughout(s, es[..|es| - 1]))
  }

  ghost predicate GoodRun(s: PoseState, es: seq<PoseEvent>) {
    es == [] || (GoodRun(s, es[..|es| - 1]) && Good(Run(s, es[..|es| - 1]), es[|es| - 1]))
  }

  /**
   From a unit offset, offset and frozen poses stay unit at every point of a run if and only if every
   fresh start is from a tracked, unclamped controller and every completion by the owner reads an
   unclamped matrix.
   */
  lemma {:induction false} UnitThroughoutIff(s: PoseState, es: seq<PoseEvent>)
    requires UnitState(s)
    ensures UnitThroughout(s, es) <==> GoodRun(s, es)
  {
    if es != [] {
      var before := es[..|es| - 1];
      UnitThroughoutIff(s, before);
      hide UnitState, Good, Step;
      if UnitThroughout(s, before) {
        UnitAtEnd(s, before);
        UnitStepIff(Run(s, before), es[|es| - 1]);
      }
    }
  }

  lemma UnitAtEnd(s: PoseState, es: seq<PoseEvent>)
    requires UnitThroughout(s, es)
    ensures UnitState(Run(s, es))
  {}

  /** Along such a run every offset is unit, and a reported rotation is exactly if the pose is frozen or read well. */
  lemma UnitOverRuns(role: ControllerRole, o: PoseConfiguration, es: seq<PoseEvent>, c: TrackedDevicePose)
    requires IsUnit(o.offsetOrientation) && GoodRun(InitialState(role, o), es)
    ensures var s := Run(InitialState(role, o), es);
      && UnitState(s)
      && (IsUnit(Reported(s, c).qRotation) <==> s.calibration.isCalibrating || GoodStart(s, c))
  {
    UnitThroughoutIff(InitialState(role, o), es);
    UnitAtEnd(InitialState(role, o), es);
    var s := Run(InitialState(role, o), es);
    hide Run, GoodRun, UnitThroughout, NormSquared, Reported;
    if s.calibration.isCalibrating {
      RestartKeepsFrozen(s, c);
    } else {
      FrozenIsUnitIff(s, c);
    }
  }

  // ----- what is reported over runs -----

  /** The controller that was named last for the hand; 0 is none. */
  function LastReference(role: ControllerRole, es: seq<PoseEvent>): uint32 {
    if es == [] then 0 as uint32
    else
      match es[|es| - 1]
      case TrackingReference(named, id) => if named == role then id else LastReference(role, es[..|es| - 1])
      case _ => LastReference(role, es[..|es| - 1])
  }

  /** Over every run the hand hangs off the controller that was named last for its own role. */
  lemma {:induction false} ControllerIsLastReference(role: ControllerRole, o: PoseConfiguration, es: seq<PoseEvent>)
    ensures var s := Run(InitialState(role, o), es); s.role == role && s.controllerId == LastReference(role, es)
  {
    if es != [] {
      ControllerIsLastReference(role, o, es[..|es| - 1]);
      hide Reported, Offsets;
    }
  }

  datatype Snapshot = Snapshot(state: PoseState, controller: TrackedDevicePose)

  /** The state and the controller that the reported pose was taken from: the present ones, or those of the last fresh start. */
  ghost function TakenFrom(s: PoseState, es: seq<PoseEvent>, c: TrackedDevicePose): Snapshot {
    if es == [] || !Run(s, es).calibration.isCalibrating then Snapshot(Run(s, es), c)
    else
      var before, last := Run(s, es[..|es| - 1]), es[|es| - 1];
      if FreshStart(before, last) then Snapshot(before, last.controller) else TakenFrom(s, es[..|es| - 1], c)
  }

  function Halted(p: DriverPose): DriverPose {
    p.(vecVelocity := ZERO_VECTOR, vecAngularVelocity := ZERO_VECTOR)
  }

  /** Over every run the pose shown during a calibration is the one reported at its fresh start, motionless. */
  lemma {:induction false} FrozenIsReportedAtStart(role: ControllerRole, o: PoseConfiguration, es: seq<PoseEvent>, c: TrackedDevicePose)
    ensures var s, r := Run(InitialState(role, o), es), TakenFrom(InitialState(role, o), es, c);
      && !r.state.calibration.isCalibrating
      && Reported(s, c) == if s.calibration.isCalibrating then Halted(Reported(r.state, r.controller)) else Reported(r.state, r.controller)
  {
    if es != [] {
      var earlier, last := es[..|es| - 1], es[|es| - 1];
      var before, s := Run(InitialState(role, o), earlier), Run(InitialState(role, o), es);
      FrozenIsReportedAtStart(role, o, earlier, c);
      if s.calibration.isCalibrating && !FreshStart(before, last) {
        FrozenPoseIsStill(role, o, earlier);
        StaysFrozen(before, last);
      }
      hide OffsetPose, Offsets;
    }
  }

  lemma StaysFrozen(s: PoseState, e: PoseEvent)
    requires Step(s, e).calibration.isCalibrating && !FreshStart(s, e) && Still(s.calibration.maintainPose)
    ensures s.calibration.isCalibrating && Step(s, e).calibration.maintainPose == s.calibration.maintainPose
  {
    hide OffsetPose, Offsets;
  }

  const NO_TURN := Quaternion(1.0, 0.0, 0.0, 0.0)

  /**
   Over every run: a hand moves only with a tracked controller and outside a calibration, with the
   controller's velocity; it is valid if a controller is known, and connected if that is tracked, where
   during a calibration its fresh start counts.
   */
  lemma ReportedOverRuns(role: ControllerRole, o: PoseConfiguration, es: seq<PoseEvent>, c: TrackedDevicePose)
    ensures var s, r := Run(InitialState(role, o), es), TakenFrom(InitialState(role, o), es, c);
      var p := Reported(s, c);
      && p.vecVelocity == (if !s.calibration.isCalibrating && Tracked(s, c) then c.velocity else ZERO_VECTOR)
      && p.vecAngularVelocity == ZERO_VECTOR
      && (p.poseIsValid <==> r.state.controllerId >= 1)
      && (p.deviceIsConnected <==> Tracked(r.state, r.controller))
      && p.result == (if r.state.controllerId >= 1 then RunningOk else Uninitialized)
      && p.qWorldFromDriverRotation == p.qDriverFromHeadRotation == NO_TURN
      && (!Tracked(r.state, r.controller) ==> WithoutRotation(p, ZERO_VECTOR))
  {
    FrozenIsReportedAtStart(role, o, es, c);
    FrozenPoseIsStill(role, o, es);
    hide Run, TakenFrom, Product, Rotate, MatrixToOrientation, MatrixToPosition;
  }
}
