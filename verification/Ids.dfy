/** Identifiers that the modules only compare, and the usual optional value. */
module Ids {

  datatype Option<+T> = None | Some(value: T)

  datatype TaskId = TaskId(name: string)

  /** A stateful lane, or none. */
  datatype LaneKey = NoLane | Lane(key: string)
}
