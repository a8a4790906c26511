/**
 * The actuator registry as a value: for each of the 4 motors and 8 servos an enable flag
 * and a setpoint. Setpoints are reals; the firmware's `float` rounding is not modelled.
 */
module Actuators {

  const MotorCount := 4
  const ServoCount := 8

  datatype RegistryState = RegistryState(
    motorEnable: seq<bool>,
    motorSet: seq<real>,
    servoEnable: seq<bool>,
    servoSet: seq<real>)

  /** Four motors, eight servos, and every motor setpoint within [-1, 1]. */
  predicate Valid(st: RegistryState) {
    && |st.motorEnable| == MotorCount && |st.motorSet| == MotorCount
    && |st.servoEnable| == ServoCount && |st.servoSet| == ServoCount
    && forall i :: 0 <= i < MotorCount ==> -1.0 <= st.motorSet[i] <= 1.0
  }

  /** The state at power-up: C zero-initialises the globals, so all disabled and at 0. */
  function Initial(): (st: RegistryState)
    ensures Valid(st)
    ensures forall i :: 0 <= i < MotorCount ==> !st.motorEnable[i] && st.motorSet[i] == 0.0
    ensures forall i :: 0 <= i < ServoCount ==> !st.servoEnable[i] && st.servoSet[i] == 0.0
  {
    RegistryState(seq(MotorCount, _ => false), seq(MotorCount, _ => 0.0),
                  seq(ServoCount, _ => false), seq(ServoCount, _ => 0.0))
  }

  /** The two range checks of `SetMotor`: first against -1, then against +1. */
  function Clamp(v: real): (r: real)
    ensures -1.0 <= r <= 1.0
    ensures -1.0 <= v <= 1.0 ==> r == v
  {
    var low := if v < -1.0 then -1.0 else v;
    if low > 1.0 then 1.0 else low
  }

  function Dist(a: real, b: real): real {
    if a < b then b - a else a - b
  }

  /** A clamped value is the point of [-1, 1] nearest to the requested one. */
  lemma ClampNearest(v: real, w: real)
    requires -1.0 <= w <= 1.0
    ensures Dist(Clamp(v), v) <= Dist(w, v)
    ensures v < -1.0 ==> Clamp(v) == -1.0
    ensures v > 1.0 ==> Clamp(v) == 1.0
  {
  }

  /** `SetMotor`: an index outside 0..3 is rejected, otherwise the clamped value is stored. */
  function SetMotor(st: RegistryState, idx: int, val: real): (st': RegistryState)
    requires Valid(st)
    ensures Valid(st')
    ensures !(0 <= idx < MotorCount) ==> st' == st
    ensures 0 <= idx < MotorCount ==> st'.motorSet[idx] == Clamp(val)
    ensures forall j :: 0 <= j < MotorCount && j != idx ==> st'.motorSet[j] == st.motorSet[j]
    ensures st'.motorEnable == st.motorEnable
    ensures st'.servoEnable == st.servoEnable && st'.servoSet == st.servoSet
  {
    if idx < 0 || idx > 3 then st
    else st.(motorSet := st.motorSet[idx := Clamp(val)])
  }
}
