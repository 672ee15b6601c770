/** System configuration constants (class Config of mainmain.py). */
module Config {
  /** Contour-based plate detection thresholds. */
  const MinPlateArea: real := 1000.0
  const MinPlateWidth: int := 100
  const MinPlateHeight: int := 25
  const MinAspectRatio: real := 2.0
  const MaxAspectRatio: real := 4.5

  /** Seconds that must pass after an accepted detection before the next one is handled. */
  const DetectionCooldown: int := 3
  /** Number of top-ranked candidate regions handed to OCR. */
  const MaxPlateCandidates: nat := 3

  /** Plates that receive the 'authorized' status. */
  const AuthorizedPlates: set<string> := {"R5477DP", "R6978SF"}

  /** Value of last_detection_time when the recognition system is built. */
  const InitialDetectionTime: int := 0

  /** The smaller of two counts (Python's min, and the end of a slice clipped to a length). */
  function Min(a: nat, b: nat): nat { if a <= b then a else b }
}
