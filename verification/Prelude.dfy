/** Vocabulary shared by every module: optional values, identifiers and instants. */
module Prelude {

  datatype Option<+T> = None | Some(value: T)

  /** An instant in nanoseconds; SqliteTime shows that the TEXT columns order it faithfully. */
  type Time = int

  datatype UserId = UserId(text: string)
  datatype GarageId = GarageId(text: string)
  datatype VehicleId = VehicleId(text: string)
  datatype JourneyId = JourneyId(text: string)

  /** What a map holds at a key, as an option. */
  function Lookup<K, V>(m: map<K, V>, k: K): Option<V> {
    if k in m then Some(m[k]) else None
  }
}
