/** The receiver's fixed configuration: receiver positions, safe zone and filter window. */
module Config {

  datatype Point = Point(x: real, y: real)

  /** Number of RSSI values the moving-average filter keeps per node. */
  const WindowSize: nat := 5

  /** Physical position of each receiver node. */
  const NodeLocations: map<string, Point> := map[
    "Node_A" := Point(2.0, 5.0),
    "Node_B" := Point(10.0, 2.0),
    "Node_C" := Point(5.0, 7.0),
    "Node_D" := Point(9.0, 2.0)
  ]

  /** Corners of the rectangular safe zone, edges included. */
  const XMin: real := 4.0
  const XMax: real := 6.7
  const YMin: real := 0.2
  const YMax: real := 5.0

  /** Bounds a validated RSSI value lies within. */
  const RssiMin: real := -150.0
  const RssiMax: real := 0.0
}
