/**
 * A simulated actuator (devices/actuator.py): fixed identity and allowed
 * range, and a status that `configure_value` changes only to a value inside
 * that range, recording the control time. The clock is a parameter.
 */
module ActuatorDevice {
  import opened Wrappers

  /** The dictionary `get_state` returns. */
  datatype ActuatorState = ActuatorState(
    id: string,
    deviceType: string,
    allowedRange: (int, int),
    status: int,
    lastControlTime: Option<string>,
    startTime: real)

  class Actuator {
    const id: string
    const deviceType: string
    const minValue: int
    const maxValue: int
    var status: int
    var lastControlTime: Option<string>
    /** `time.time()` when the actuator was built, an opaque clock reading. */
    const startTime: real

    /** The status lies in the allowed range. */
    predicate StatusInRange()
      reads this
    {
      minValue <= status <= maxValue
    }

    /** A new actuator has status 0 and no control time; 0 need not lie in [min, max]. */
    constructor (id: string, deviceType: string, minValue: int, maxValue: int, startTime: real)
      ensures this.id == id && this.deviceType == deviceType
      ensures this.minValue == minValue && this.maxValue == maxValue && this.startTime == startTime
      ensures status == 0 && lastControlTime == None
      ensures StatusInRange() <==> minValue <= 0 <= maxValue
    {
      this.id := id;
      this.deviceType := deviceType;
      this.minValue := minValue;
      this.maxValue := maxValue;
      this.startTime := startTime;
      status := 0;
      lastControlTime := None;
    }

    /** `configure_value`: a value inside [min, max] becomes the status and the control
        time is recorded; any other value is refused and nothing changes. */
    method ConfigureValue(value: int, now: string) returns (accepted: bool)
      modifies this
      ensures accepted <==> minValue <= value <= maxValue
      ensures accepted ==> status == value && lastControlTime == Some(now) && StatusInRange()
      ensures !accepted ==> status == old(status) && lastControlTime == old(lastControlTime)
      ensures minValue > maxValue ==> !accepted
      ensures old(StatusInRange()) ==> StatusInRange()
    {
      if minValue <= value <= maxValue {
        status := value;
        lastControlTime := Some(now);
        accepted := true;
      } else {
        accepted := false;
      }
    }

    /** `get_state`: every reported entry is the stored field. */
    function GetState(): (s: ActuatorState)
      reads this
      ensures s.id == id && s.deviceType == deviceType
      ensures s.allowedRange == (minValue, maxValue)
      ensures s.status == status && s.lastControlTime == lastControlTime
      ensures s.startTime == startTime
    {
      ActuatorState(id, deviceType, (minValue, maxValue), status, lastControlTime, startTime)
    }
  }
}
