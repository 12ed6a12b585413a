/** Values shared by both motion estimators. */
module Frames {

  /** An image point in pixel coordinates (x to the right, y downwards). */
  datatype Point = Point(x: real, y: real)

  /** A grayscale frame: rows of intensities. The estimators only store it and
      hand it to the detectors, so its contents never matter to the model. */
  type Gray = seq<seq<int>>
}
