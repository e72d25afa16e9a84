/**
 * The device registry (l_mibvs.py): two maps keyed by device id, one for
 * sensors and one for actuators, filled in place by registration, which
 * refuses an id already present. The maps hold the device objects
 * themselves, so a change made to a registered device afterwards is seen
 * through every lookup.
 */
module LMib {
  import opened Wrappers
  import opened SensorDevice
  import opened ActuatorDevice

  /** Outcome of a registration: done, or the ValueError raised, with its message. */
  datatype Registration = Registered | Rejected(message: string)

  /** The dictionary `get_mib_state` returns. */
  datatype MibState = MibState(
    sensors: map<string, SensorState>,
    actuators: map<string, ActuatorState>,
    startTime: real)

  /** The dictionary `get_all_devices_states` returns: copies of the two maps, whose
      values are the device objects themselves. */
  datatype AllDevices = AllDevices(sensors: map<string, Sensor>, actuators: map<string, Actuator>)

  function DuplicateSensorMessage(id: string): string
  {
    "Sensor with ID " + id + " already exists."
  }

  function DuplicateActuatorMessage(id: string): string
  {
    "Actuator with ID " + id + " already exists."
  }

  class Mib {
    var sensors: map<string, Sensor>
    var actuators: map<string, Actuator>
    /** `time.time()` when the registry was built, an opaque clock reading. */
    const startTime: real

    /** Every device is filed under its own id. */
    predicate Valid()
      reads this
    {
      && (forall id :: id in sensors ==> sensors[id].id == id)
      && (forall id :: id in actuators ==> actuators[id].id == id)
    }

    constructor (startTime: real)
      ensures sensors == map[] && actuators == map[] && this.startTime == startTime
      ensures Valid()
    {
      sensors := map[];
      actuators := map[];
      this.startTime := startTime;
    }

    /** `register_sensor`: a fresh id is added to the sensor map, a known one is refused
        and both maps stay as they were; the actuator map is never touched. */
    method RegisterSensor(sensor: Sensor) returns (outcome: Registration)
      modifies this
      ensures outcome == if sensor.id in old(sensors) then Rejected(DuplicateSensorMessage(sensor.id)) else Registered
      ensures outcome.Registered? ==> sensors == old(sensors)[sensor.id := sensor]
      ensures outcome.Rejected? ==> sensors == old(sensors)
      ensures forall id :: id in old(sensors) ==> id in sensors && sensors[id] == old(sensors)[id]
      ensures actuators == old(actuators)
      ensures outcome.Registered? ==> GetSensor(sensor.id) == Some(sensor)
      ensures old(Valid()) ==> Valid()
    {
      if sensor.id !in sensors {
        sensors := sensors[sensor.id := sensor];
        outcome := Registered;
      } else {
        outcome := Rejected(DuplicateSensorMessage(sensor.id));
      }
    }

    /** `register_actuator`: the same as `register_sensor`, on the actuator map. */
    method RegisterActuator(actuator: Actuator) returns (outcome: Registration)
      modifies this
      ensures outcome == if actuator.id in old(actuators) then Rejected(DuplicateActuatorMessage(actuator.id)) else Registered
      ensures outcome.Registered? ==> actuators == old(actuators)[actuator.id := actuator]
      ensures outcome.Rejected? ==> actuators == old(actuators)
      ensures forall id :: id in old(actuators) ==> id in actuators && actuators[id] == old(actuators)[id]
      ensures sensors == old(sensors)
      ensures outcome.Registered? ==> GetActuator(actuator.id) == Some(actuator)
      ensures old(Valid()) ==> Valid()
    {
      if actuator.id !in actuators {
        actuators := actuators[actuator.id := actuator];
        outcome := Registered;
      } else {
        outcome := Rejected(DuplicateActuatorMessage(actuator.id));
      }
    }

    /** `get_sensor`: the registered object, or None for an unknown id. */
    function GetSensor(sensorId: string): (r: Option<Sensor>)
      reads this
      ensures r.Some? <==> sensorId in sensors
      ensures r.Some? ==> r.value == sensors[sensorId]
      ensures Valid() && r.Some? ==> r.value.id == sensorId
    {
      if sensorId in sensors then Some(sensors[sensorId]) else None
    }

    /** `get_actuator`: the registered object, or None for an unknown id. */
    function GetActuator(actuatorId: string): (r: Option<Actuator>)
      reads this
      ensures r.Some? <==> actuatorId in actuators
      ensures r.Some? ==> r.value == actuators[actuatorId]
      ensures Valid() && r.Some? ==> r.value.id == actuatorId
    {
      if actuatorId in actuators then Some(actuators[actuatorId]) else None
    }

    /** `get_all_sensors`: the sensor map itself, id to object. */
    function GetAllSensors(): (r: map<string, Sensor>)
      reads this
      ensures r == sensors
      ensures Valid() ==> forall id :: id in r ==> r[id].id == id
    {
      sensors
    }

    /** `get_all_actuators`: the actuator map itself, id to object. */
    function GetAllActuators(): (r: map<string, Actuator>)
      reads this
      ensures r == actuators
      ensures Valid() ==> forall id :: id in r ==> r[id].id == id
    {
      actuators
    }

    /** `get_sensor_state`: the current state of the registered sensor, or None. */
    function GetSensorState(sensorId: string): (r: Option<SensorState>)
      reads this, sensors.Values
      ensures r.None? <==> sensorId !in sensors
      ensures sensorId in sensors ==> r == Some(sensors[sensorId].GetState())
      ensures Valid() && r.Some? ==> r.value.id == sensorId
    {
      match GetSensor(sensorId)
      case Some(sensor) => Some(sensor.GetState())
      case None => None
    }

    /** `get_actuator_state`: the current state of the registered actuator, or None. */
    function GetActuatorState(actuatorId: string): (r: Option<ActuatorState>)
      reads this, actuators.Values
      ensures r.None? <==> actuatorId !in actuators
      ensures actuatorId in actuators ==> r == Some(actuators[actuatorId].GetState())
      ensures Valid() && r.Some? ==> r.value.id == actuatorId
    {
      match GetActuator(actuatorId)
      case Some(actuator) => Some(actuator.GetState())
      case None => None
    }

    /** `get_mib_state`: exactly the registered ids, each with its device's current state,
        and the registry's start time. */
    function GetMibState(): (r: MibState)
      reads this, sensors.Values, actuators.Values
      ensures r.sensors.Keys == sensors.Keys && r.actuators.Keys == actuators.Keys
      ensures forall id :: id in sensors ==> r.sensors[id] == sensors[id].GetState()
      ensures forall id :: id in actuators ==> r.actuators[id] == actuators[id].GetState()
      ensures r.startTime == startTime
      ensures Valid() ==> forall id :: id in r.sensors ==> r.sensors[id].id == id
    {
      MibState(
        map id | id in sensors :: sensors[id].GetState(),
        map id | id in actuators :: actuators[id].GetState(),
        startTime)
    }

    /** `get_all_devices_states`: copies of both maps, id to device object. */
    function GetAllDevicesStates(): (r: AllDevices)
      reads this
      ensures r.sensors == sensors && r.actuators == actuators
    {
      AllDevices(map id | id in sensors :: sensors[id], map id | id in actuators :: actuators[id])
    }
  }

  /** The registry holds references: after registering an actuator, configuring the
      object itself changes what `get_actuator_state` reports (only when the value is
      accepted). */
  method ConfigurationSeenThroughRegistry(
    id: string, deviceType: string, minValue: int, maxValue: int, value: int, now: string, clock: real)
    returns (before: Option<ActuatorState>, accepted: bool, after: Option<ActuatorState>)
    ensures before.Some? && before.value.status == 0 && before.value.lastControlTime == None
    ensures accepted <==> minValue <= value <= maxValue
    ensures after.Some? && after.value.status == (if accepted then value else 0)
    ensures after.value.lastControlTime == (if accepted then Some(now) else None)
  {
    var mib := new Mib(clock);
    var actuator := new Actuator(id, deviceType, minValue, maxValue, clock);
    var _ := mib.RegisterActuator(actuator);
    before := mib.GetActuatorState(id);
    accepted := actuator.ConfigureValue(value, now);
    after := mib.GetActuatorState(id);
  }

  /** Sensor and actuator ids are separate name spaces: one id can be registered once in
      each map, and a second registration in the same map is refused. */
  method SeparateIdSpaces(id: string, clock: real)
    returns (sensorOutcome: Registration, actuatorOutcome: Registration, again: Registration)
    ensures sensorOutcome == Registered && actuatorOutcome == Registered
    ensures again == Rejected("Sensor with ID " + id + " already exists.")
  {
    var mib := new Mib(clock);
    var sensor := new Sensor(id, "temperature", 0, 50, clock);
    var actuator := new Actuator(id, "fan", 0, 1, clock);
    sensorOutcome := mib.RegisterSensor(sensor);
    actuatorOutcome := mib.RegisterActuator(actuator);
    again := mib.RegisterSensor(sensor);
  }
}
