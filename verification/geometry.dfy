/** Frames and transformations, kept opaque: the information model only stores
    frames, reads their origin, and hands them to a transformation. */
module Geometry {

  datatype Vector = Vector(x: real, y: real, z: real)

  /** A pose: an origin point and two orientation axes. */
  datatype Frame = Frame(point: Vector, xaxis: Vector, yaxis: Vector)

  /** Any map from frames to frames; what a transformation does to a frame is
      outside the model. */
  type Transformation = Frame -> Frame

  /** `Frame.worldXY()`. */
  const WorldXY: Frame := Frame(Vector(0.0, 0.0, 0.0), Vector(1.0, 0.0, 0.0), Vector(0.0, 1.0, 0.0))
}
