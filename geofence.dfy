/** is_within_safe_zone and the status string chosen from it. */
module Geofence {
  import opened Config

  const SafeStatus: string := "Safe"
  const AlertStatus: string := "ALERT: Patient Outside Safe Zone!"

  /** The rectangle test, inclusive on all four edges. */
  predicate WithinSafeZone(p: Point) {
    XMin <= p.x <= XMax && YMin <= p.y <= YMax
  }

  /** The status published for an estimated location. */
  function Status(p: Point): (s: string)
    ensures s == SafeStatus <==> WithinSafeZone(p)
    ensures s == AlertStatus <==> !WithinSafeZone(p)
  {
    if WithinSafeZone(p) then SafeStatus else AlertStatus
  }

  lemma SafeZoneExamples()
    ensures Status(Point(4.0, 0.2)) == SafeStatus
    ensures Status(Point(6.7, 5.0)) == SafeStatus
    ensures Status(Point(5.0, 2.0)) == SafeStatus
    ensures Status(Point(0.0, 0.0)) == AlertStatus
    ensures Status(Point(6.8, 2.0)) == AlertStatus
  {
  }
}
