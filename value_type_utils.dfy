/**
 * The IID → value-type table (utils/value_type_utils.py). For the Device group
 * it is a fixed dictionary; for the Sensors and Actuators groups it looks up
 * the k-th declared field of the Sensor or Actuator dataclass, so its answers
 * follow the declaration order of those classes' fields.
 */
module ValueTypeUtils {
  import opened Wrappers

  /** The annotation of a dataclass field: one of Python's classes int, str, float. */
  datatype PyClass = IntClass | StrClass | FloatClass

  /** One entry of `dataclasses.fields(...)`: the field's name and annotated type. */
  datatype FieldDecl = FieldDecl(name: string, annotation: PyClass)

  /** What `get_value_type_from_iid` returns: a class object, or one of the strings "timestamp", "list". */
  datatype ValueType = Class(cls: PyClass) | TimestampTag | ListTag

  /** The exceptions the lookup lets escape. */
  datatype PyException =
    | ValueError  // `structure, object_id, *indexes = iid` with fewer than two elements
    | IndexError  // field position outside the field list

  /** Outcome of a call: a returned value (`None` included) or an escaping exception. */
  datatype TypeLookup = Returns(t: Option<ValueType>) | Raises(e: PyException)

  /** `fields(Sensor)`: the fields of class Sensor (devices/sensor.py) in declaration order. */
  const SensorFields: seq<FieldDecl> := [
    FieldDecl("id", StrClass),
    FieldDecl("type", StrClass),
    FieldDecl("min_value", IntClass),
    FieldDecl("max_value", IntClass),
    FieldDecl("current_value", IntClass),
    FieldDecl("status", FloatClass),
    FieldDecl("last_sampling_time", StrClass),
    FieldDecl("start_time", FloatClass)
  ]

  /** `fields(Actuator)`: the fields of class Actuator (devices/actuator.py) in declaration order. */
  const ActuatorFields: seq<FieldDecl> := [
    FieldDecl("id", StrClass),
    FieldDecl("type", StrClass),
    FieldDecl("min_value", IntClass),
    FieldDecl("max_value", IntClass),
    FieldDecl("status", IntClass),
    FieldDecl("last_control_time", StrClass),
    FieldDecl("start_time", FloatClass)
  ]

  /** Python's `s[i]` on a list: negative positions count from the end; None stands for IndexError. */
  function PyIndex<T>(s: seq<T>, i: int): (r: Option<T>)
    ensures r.Some? <==> -|s| <= i < |s|
    ensures 0 <= i < |s| ==> r == Some(s[i])
    ensures -|s| <= i < 0 ==> r == Some(s[|s| + i])
  {
    if 0 <= i < |s| then Some(s[i])
    else if -|s| <= i < 0 then Some(s[|s| + i])
    else None
  }

  /** The `device_map` dictionary of the Device group, read with `.get`. */
  function DeviceType(objectId: int): (r: Option<ValueType>)
    ensures r.Some? <==> 0 <= objectId <= 10
  {
    match objectId
    case 0 => Some(Class(IntClass))
    case 1 => Some(Class(StrClass))
    case 2 => Some(Class(StrClass))
    case 3 => Some(Class(IntClass))
    case 4 => Some(Class(IntClass))
    case 5 => Some(Class(IntClass))
    case 6 => Some(TimestampTag)
    case 7 => Some(TimestampTag)
    case 8 => Some(TimestampTag)
    case 9 => Some(Class(IntClass))
    case 10 => Some(Class(IntClass))
    case _ => None
  }

  /** The Sensors/Actuators branch: object 0 is the row count, two indexes a list,
      otherwise the field at position object-1, with the time field reported as a timestamp. */
  function TableType(fields: seq<FieldDecl>, timeField: string, objectId: int, indexCount: nat): TypeLookup
  {
    if objectId == 0 then Returns(Some(Class(IntClass)))
    else if indexCount == 2 then Returns(Some(ListTag))
    else match PyIndex(fields, objectId - 1)
      case None => Raises(IndexError)
      case Some(f) => if f.name == timeField then Returns(Some(TimestampTag)) else Returns(Some(Class(f.annotation)))
  }

  /** `get_value_type_from_iid`. */
  function GetValueTypeFromIid(iid: seq<int>): (r: TypeLookup)
    ensures |iid| < 2 ==> r == Raises(ValueError)
    ensures |iid| >= 2 && iid[0] == 1 ==> r == Returns(DeviceType(iid[1]))
    ensures |iid| >= 2 && iid[0] in {2, 3} && iid[1] == 0 ==> r == Returns(Some(Class(IntClass)))
    ensures |iid| == 4 && iid[0] in {2, 3} && iid[1] != 0 ==> r == Returns(Some(ListTag))
    ensures |iid| >= 2 && iid[0] !in {1, 2, 3} ==> r == Returns(None)
    ensures r == Raises(IndexError) ==> |iid| >= 2 && |iid| != 4 && iid[0] in {2, 3} && iid[1] != 0
  {
    if |iid| < 2 then Raises(ValueError)
    else
      var structure, objectId, indexCount := iid[0], iid[1], |iid| - 2;
      if structure == 1 then Returns(DeviceType(objectId))
      else if structure == 2 then TableType(SensorFields, "last_sampling_time", objectId, indexCount)
      else if structure == 3 then TableType(ActuatorFields, "last_control_time", objectId, indexCount)
      else Returns(None)
  }

  /** The expected type of each Sensors object 1..8, written out from the Sensor class's declarations. */
  function SensorObjectType(k: int): ValueType
    requires 1 <= k <= 8
  {
    [Class(StrClass), Class(StrClass), Class(IntClass), Class(IntClass),
     Class(IntClass), Class(FloatClass), TimestampTag, Class(FloatClass)][k - 1]
  }

  /** The expected type of each Actuators object 1..7, written out from the Actuator class's declarations. */
  function ActuatorObjectType(k: int): ValueType
    requires 1 <= k <= 7
  {
    [Class(StrClass), Class(StrClass), Class(IntClass), Class(IntClass),
     Class(IntClass), TimestampTag, Class(FloatClass)][k - 1]
  }

  /** Sensors object k in 1..8 with any number of indexes but two gives the k-th declared field's type,
      except k = 7 (last_sampling_time) which gives "timestamp"; past the last field it raises. */
  lemma SensorTypesFollowFields(k: int, indexes: seq<int>)
    requires |indexes| != 2
    ensures 1 <= k <= 8 ==> GetValueTypeFromIid([2, k] + indexes) == Returns(Some(SensorObjectType(k)))
    ensures 1 <= k <= 8 && k != 7 ==> SensorObjectType(k) == Class(SensorFields[k - 1].annotation)
    ensures k > 8 ==> GetValueTypeFromIid([2, k] + indexes) == Raises(IndexError)
  {
    var iid := [2, k] + indexes;
    assert iid[0] == 2 && iid[1] == k && |iid| - 2 == |indexes|;
  }

  /** Actuators object k in 1..7 with any number of indexes but two gives the k-th declared field's type,
      except k = 6 (last_control_time) which gives "timestamp"; past the last field it raises. */
  lemma ActuatorTypesFollowFields(k: int, indexes: seq<int>)
    requires |indexes| != 2
    ensures 1 <= k <= 7 ==> GetValueTypeFromIid([3, k] + indexes) == Returns(Some(ActuatorObjectType(k)))
    ensures 1 <= k <= 7 && k != 6 ==> ActuatorObjectType(k) == Class(ActuatorFields[k - 1].annotation)
    ensures k > 7 ==> GetValueTypeFromIid([3, k] + indexes) == Raises(IndexError)
  {
    var iid := [3, k] + indexes;
    assert iid[0] == 3 && iid[1] == k && |iid| - 2 == |indexes|;
  }

  /** The Device group ignores indexes: only the object id decides. */
  lemma DeviceIgnoresIndexes(objectId: int, indexes: seq<int>)
    ensures GetValueTypeFromIid([1, objectId] + indexes) == GetValueTypeFromIid([1, objectId])
  {
    assert ([1, objectId] + indexes)[..2] == [1, objectId];
  }

  /** A negative object id wraps around like Python list indexing: Sensors object k reads
      the same field as object k + 8 (the table has eight fields and position k - 1 counts
      from the end), Actuators object k the same as k + 7; further back it raises. */
  lemma NegativeObjectWraps(k: int, indexes: seq<int>)
    requires k < 0
    ensures -7 <= k ==> GetValueTypeFromIid([2, k] + indexes) == GetValueTypeFromIid([2, k + 8] + indexes)
    ensures k < -7 && |indexes| != 2 ==> GetValueTypeFromIid([2, k] + indexes) == Raises(IndexError)
    ensures -6 <= k ==> GetValueTypeFromIid([3, k] + indexes) == GetValueTypeFromIid([3, k + 7] + indexes)
    ensures k < -6 && |indexes| != 2 ==> GetValueTypeFromIid([3, k] + indexes) == Raises(IndexError)
  {
    var s, s8, a, a7 := [2, k] + indexes, [2, k + 8] + indexes, [3, k] + indexes, [3, k + 7] + indexes;
    assert s[0] == 2 && s[1] == k && |s| - 2 == |indexes|;
    assert s8[0] == 2 && s8[1] == k + 8 && |s8| - 2 == |indexes|;
    assert a[0] == 3 && a[1] == k && |a| - 2 == |indexes|;
    assert a7[0] == 3 && a7[1] == k + 7 && |a7| - 2 == |indexes|;
  }
}
