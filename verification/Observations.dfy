/** What is observed of a vehicle, and where. */
module Observations {

  datatype Point = Point(x: real, y: real)

  /** A position at a time: a raw event and the origin of a trip's layer alike. */
  datatype Origin = Origin(point: Point, timestamp: int)
}
