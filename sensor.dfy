/**
 * A simulated sensor (devices/sensor.py): fixed identity and value range, and
 * a reading that stores a new sample, a percentage-of-range status and the
 * sampling time. The random sample and the clock are parameters of the read.
 */
module SensorDevice {
  import opened Wrappers

  /** The dictionary `get_state` returns. */
  datatype SensorState = SensorState(
    id: string,
    deviceType: string,
    allowedRange: (int, int),
    value: Option<int>,
    statusPercent: Option<int>,
    lastSamplingTime: Option<string>)

  class Sensor {
    const id: string
    const deviceType: string
    const minValue: int
    const maxValue: int
    var currentValue: Option<int>
    var status: Option<int>
    var lastSamplingTime: Option<string>
    /** `time.time()` when the sensor was built, an opaque clock reading. */
    const startTime: real

    /** A new sensor has no value, no status and no sampling time yet. */
    constructor (id: string, deviceType: string, minValue: int, maxValue: int, startTime: real)
      ensures this.id == id && this.deviceType == deviceType
      ensures this.minValue == minValue && this.maxValue == maxValue && this.startTime == startTime
      ensures currentValue == None && status == None && lastSamplingTime == None
    {
      this.id := id;
      this.deviceType := deviceType;
      this.minValue := minValue;
      this.maxValue := maxValue;
      this.startTime := startTime;
      currentValue := None;
      status := None;
      lastSamplingTime := None;
    }

    /** `read_value`: `sample` is what `random.randint(min_value, max_value)` drew (which
        raises unless min <= max) and `now` the timestamp the clock gave. The status is
        int((sample - min) / (max - min) * 100) in floating point, or 0 for an empty range;
        only its bounds and its values at the two ends of the range are modelled. */
    method ReadValue(sample: int, now: string) returns (value: int)
      requires minValue <= maxValue
      requires minValue <= sample <= maxValue
      modifies this
      ensures value == sample && currentValue == Some(value)
      ensures lastSamplingTime == Some(now)
      ensures status.Some? && 0 <= status.value <= 100
      ensures minValue == maxValue ==> status == Some(0)
      ensures minValue < maxValue && sample == minValue ==> status == Some(0)
      ensures minValue < maxValue && sample == maxValue ==> status == Some(100)
    {
      currentValue := Some(sample);
      var interval := maxValue - minValue;
      var percent: int;
      if interval > 0 {
        percent :| 0 <= percent <= 100
          && (sample == minValue ==> percent == 0)
          && (sample == maxValue ==> percent == 100);
      } else {
        percent := 0;
      }
      status := Some(percent);
      lastSamplingTime := Some(now);
      value := sample;
    }

    /** `get_state`: every reported entry is the stored field. */
    function GetState(): (s: SensorState)
      reads this
      ensures s.id == id && s.deviceType == deviceType
      ensures s.allowedRange == (minValue, maxValue)
      ensures s.value == currentValue && s.statusPercent == status
      ensures s.lastSamplingTime == lastSamplingTime
    {
      SensorState(id, deviceType, (minValue, maxValue), currentValue, status, lastSamplingTime)
    }
  }
}
