# Patient-tag localisation on the Raspberry Pi receiver

This is a Dafny model of the receiver that runs on the Raspberry Pi. Four fixed
receivers (`Node_A` … `Node_D`) each publish the RSSI at which they heard a patient's
tag. The receiver takes these readings one message at a time:

- It validates each message.
- It buffers the latest reading of every node, per device.
- Once all four nodes have reported for a device, it runs the cycle through the processing pipeline:
  1. a moving-average noise filter per node;
  2. a linear RSSI-to-distance conversion;
  3. trilateration (an inverse-distance weighted centroid for fewer than three samples, a least-squares solve of the linearised circle equations otherwise);
  4. a rectangular safe-zone test.
- The pipeline yields the alert that is published for the device, and the buffer is then cleared.

Modules, one per component:

| module | file | models |
|---|---|---|
| `Json` | json.dfy | decoded JSON scalars; Python's `float()`, `int()` and `str()` on them |
| `Config` | config.dfy | node locations, safe-zone rectangle, window size, RSSI range |
| `Validation` | validation.dfy | `validate_message` |
| `Rounding` | rounding.dfy | `round(x, 1)` (half-to-even on the exact value) |
| `Distance` | distance.dfy | `rssi_to_distance` |
| `NoiseFilter` | noise_filter.dfy | `noise_filter` and its per-node history (class `MovingAverage`) |
| `Trilateration` | trilateration.dfy | `trilateration`: centroid fallback, the linear system, `lstsq` for two unknowns |
| `Geofence` | geofence.dfy | `is_within_safe_zone` and the status string |
| `Pipeline` | pipeline.dfy | `process_aggregated_data` |
| `Aggregation` | aggregation.dfy | `on_message`, its pure specification `Step`, and class `Aggregator` |

Stateful code is modelled as classes:

- The per-node filter history is the class `NoiseFilter.MovingAverage`.
- The per-device buffers are the class `Aggregation.Aggregator`.

Their methods are proved equal to pure functions. `MovingAverage.Filter` is tied to `Slide`/`Mean`. `Aggregator.Receive` is tied to `Step`. `Pipeline.Process` is tied to `SmoothAll`/`Report`. The properties are lemmas about those functions.

One line of the code does not do what its function promises, and the model follows the code:

- `trilateration` promises a least-squares trilateration of the position (receive_process.py lines 84-86).
- Subtracting the reference node's circle equation from node i's gives the right-hand side `xi² − x1² + yi² − y1² − (di² − d1²)`.
- Line 111 adds `di² − d1²` instead.
- The model keeps the sign as written, so the status it computes is the one the receiver publishes. The consequence is reported under Findings.

## Model

| member | source | states |
|---|---|---|
| Json.IntToStringRoundTrip | RaspPi_Processing/RaspPi_Processing/receive_process.py:234-235 | `int(str(n)) == n`: the published cycle timestamp reads back as the maximum |
| Json.NatToStringValue | RaspPi_Processing/RaspPi_Processing/receive_process.py:235 | the decimal digits `str()` writes for a natural number denote that number |
| Json.Truncate | RaspPi_Processing/RaspPi_Processing/receive_process.py:234 | `int()` on a float truncates toward zero: the result lies within 1 of the argument, on the zero side |
| Json.NatToString | RaspPi_Processing/RaspPi_Processing/receive_process.py:235 | `str()` of a natural number is a non-empty string of decimal digits with no leading zero |
| Json.IntToString | RaspPi_Processing/RaspPi_Processing/receive_process.py:235 | `str()` of an int is its canonical decimal text: a minus sign exactly for a negative number, then at least one digit, with no leading zero; `IntToStringRoundTrip` proves `int()` reads it back |
| Json.ParseFloatText | RaspPi_Processing/RaspPi_Processing/receive_process.py:53 | `float()` on text: defined by its body (sign, digits, optional fraction); `ParseFloatExample` shows `float("-70.5") == -70.5` |
| Json.ToFloat | RaspPi_Processing/RaspPi_Processing/receive_process.py:53 | `float()` on a decoded value: text as `ParseFloatText`, ints and floats as themselves, booleans as 1.0/0.0, null fails; `RangeExamples` and `MessageAccepted` state its use in validation |
| Json.ParseIntText | RaspPi_Processing/RaspPi_Processing/receive_process.py:234 | `int()` on text: an optional sign and at least one digit; `IntToStringRoundTrip` and `ParseIntExample` state its properties |
| Json.ToInt | RaspPi_Processing/RaspPi_Processing/receive_process.py:234 | `int()` on a decoded value: text as `ParseIntText`, floats truncated toward zero (`Truncate`), booleans as 1/0, null fails; `MaxTimestamp` and `CycleMaximum` state its use |
| Validation.Validate | RaspPi_Processing/RaspPi_Processing/receive_process.py:44-60 | the flag is true exactly when the reason is "Valid", and exactly when the message has all four keys, a numeric RSSI in [-150, 0] and a known node id |
| Validation.ReportsFirstFailure | RaspPi_Processing/RaspPi_Processing/receive_process.py:48-59 | a refused message is reported for the first failing check, for each check in both directions: the first missing key in the order device_id, node_id, RSSI, timestamp, then a non-numeric RSSI, then an out-of-range RSSI (with its value), then an unknown node id (with its value) |
| Validation.FirstMissing | RaspPi_Processing/RaspPi_Processing/receive_process.py:49-51 | no index exactly when every key is present; otherwise the index of a missing key with all earlier keys present |
| Validation.ReportsEarliestMissingKey | RaspPi_Processing/RaspPi_Processing/receive_process.py:49-51 | with several keys missing, the earliest is the one reported |
| Validation.RangeExamples | RaspPi_Processing/RaspPi_Processing/receive_process.py:53-59 | -150 is accepted (inclusive edge); `True` converts to 1.0 and is out of range; `Node_E` is unknown |
| Rounding.RoundHalfEven | RaspPi_Processing/RaspPi_Processing/receive_process.py:81 | the nearest integer, at most 0.5 away; a tie goes to the even neighbour |
| Rounding.Round1 | RaspPi_Processing/RaspPi_Processing/receive_process.py:81 | `round(x, 1)` is a multiple of a tenth at most 0.05 from x; a value halfway between two tenths goes to the one with an even last digit |
| Rounding.Round1Ties | RaspPi_Processing/RaspPi_Processing/receive_process.py:81 | the ties 0.25, 0.75 and -0.25 (exact in binary) round to 0.2, 0.8 and -0.2 |
| Rounding.Round1Monotone | RaspPi_Processing/RaspPi_Processing/receive_process.py:81 | rounding preserves order |
| Rounding.RoundHalfEvenMonotone | RaspPi_Processing/RaspPi_Processing/receive_process.py:81 | rounding to an integer preserves order |
| Rounding.Round1OfTenths | RaspPi_Processing/RaspPi_Processing/receive_process.py:81 | a value that already has one decimal is unchanged |
| Distance.RssiToDistance | RaspPi_Processing/RaspPi_Processing/receive_process.py:75-81 | the distance is within 0.05 of `(abs(rssi) - 30) / 10` and has one decimal |
| Distance.DistanceMonotone | RaspPi_Processing/RaspPi_Processing/receive_process.py:80-81 | a larger RSSI magnitude never gives a smaller distance |
| Distance.DistanceNotClamped | RaspPi_Processing/RaspPi_Processing/receive_process.py:80-81 | magnitudes below 29.5 give negative distances (no clamping) |
| Distance.DistanceExamples | RaspPi_Processing/RaspPi_Processing/receive_process.py:80-81 | -80 gives 5.0 and -20 gives -1.0 |
| Distance.DistanceRange | RaspPi_Processing/RaspPi_Processing/receive_process.py:75-81 | every RSSI that passes validation gives a distance in [-3.0, 12.0] |
| Geofence.WithinSafeZone | RaspPi_Processing/RaspPi_Processing/receive_process.py:119-125 | the inclusive rectangle test with the constants of lines 35-40; `Status` and `SafeZoneExamples` state its properties |
| Geofence.Status | RaspPi_Processing/RaspPi_Processing/receive_process.py:170-171 | the status is "Safe" exactly when the point is inside the rectangle, and the alert text exactly when it is outside |
| Geofence.SafeZoneExamples | RaspPi_Processing/RaspPi_Processing/receive_process.py:119-125 | both corners (4.0, 0.2) and (6.7, 5.0) are inside (inclusive edges); (5, 2) is inside; (0, 0) and (6.8, 2) are outside |
| NoiseFilter.Slide | RaspPi_Processing/RaspPi_Processing/receive_process.py:69-71 | the new window ends with the new value, keeps within WINDOW_SIZE, and holds only values of the old window besides it |
| NoiseFilter.LastN | RaspPi_Processing/RaspPi_Processing/receive_process.py:65 | at most n values, and all of them when there are fewer than n |
| NoiseFilter.SlideKeepsLastValues | RaspPi_Processing/RaspPi_Processing/receive_process.py:67-71 | sliding a value into the last five values fed gives the last five values including it |
| NoiseFilter.FeedAllKeepsLastValues | RaspPi_Processing/RaspPi_Processing/receive_process.py:67-71 | after any sequence of values, the window is the last five values fed overall |
| NoiseFilter.FeedFromEmpty | RaspPi_Processing/RaspPi_Processing/receive_process.py:67-71 | feeding WINDOW_SIZE + k values to a new node leaves exactly the last WINDOW_SIZE of them, in order |
| NoiseFilter.SumBounds | RaspPi_Processing/RaspPi_Processing/receive_process.py:72 | the sum of n values in [lo, hi] lies in [n·lo, n·hi] |
| NoiseFilter.MeanBounds | RaspPi_Processing/RaspPi_Processing/receive_process.py:72 | the average of the window lies between the bounds of its values |
| NoiseFilter.MovingAverage.constructor | RaspPi_Processing/RaspPi_Processing/receive_process.py:22 | the history starts empty |
| NoiseFilter.MovingAverage.Filter | RaspPi_Processing/RaspPi_Processing/receive_process.py:62-73 | only this node's window changes; it becomes the old window with rssi slid in, holding 1 to 5 values that are the last five fed to this node; the result is their arithmetic mean |
| Trilateration.Weight | RaspPi_Processing/RaspPi_Processing/receive_process.py:94 | the weight is `1/d`, or 1 for d = 0; it is never 0 and is positive for non-negative d |
| Trilateration.Centroid | RaspPi_Processing/RaspPi_Processing/receive_process.py:88-98 | the weighted average of the node locations, each coordinate rounded; `CentroidOfOne`, `CentroidOfEquidistantPair`, `CentroidWithinBounds` and `CentroidUndefined` state its properties |
| Trilateration.WeightedCentroid | RaspPi_Processing/RaspPi_Processing/receive_process.py:88-98 | the accumulator loop returns the weighted average of the locations, rounded to one decimal (None where the source divides by zero) |
| Trilateration.CentroidOfOne | RaspPi_Processing/RaspPi_Processing/receive_process.py:88-98 | a single sample yields its own location (rounded) |
| Trilateration.CentroidOfEquidistantPair | RaspPi_Processing/RaspPi_Processing/receive_process.py:88-98 | two samples at equal distance yield their midpoint |
| Trilateration.CentroidExample | RaspPi_Processing/RaspPi_Processing/receive_process.py:88-98 | distances 1 and 1 at (0,0) and (10,0) give (5.0, 0.0) |
| Trilateration.CentroidUndefined | RaspPi_Processing/RaspPi_Processing/receive_process.py:98 | no samples, or weights 1 and -1, make the division fail |
| Trilateration.TotalWeightPositive | RaspPi_Processing/RaspPi_Processing/receive_process.py:92-95 | non-negative distances give a positive total weight |
| Trilateration.WeightedSumAtLeast | RaspPi_Processing/RaspPi_Processing/receive_process.py:92-97 | the weighted sum is at least the lower coordinate bound times the total weight |
| Trilateration.WeightedSumAtMost | RaspPi_Processing/RaspPi_Processing/receive_process.py:92-97 | the weighted sum is at most the upper coordinate bound times the total weight |
| Trilateration.CentroidWithinBounds | RaspPi_Processing/RaspPi_Processing/receive_process.py:88-98 | with non-negative distances the centroid exists and lies within the (rounded) bounding box of the node locations |
| Trilateration.BuildSystem | RaspPi_Processing/RaspPi_Processing/receive_process.py:100-111 | one row per sample after the first, in order, each taken relative to the first sample, with coefficients `2(xi−x1), 2(yi−y1)` and the right-hand side as written |
| Trilateration.SolveNormal | RaspPi_Processing/RaspPi_Processing/receive_process.py:114 | the result solves the normal equations when the 2×2 normal matrix is invertible, and also when it is singular but the right-hand side lies in its column space |
| Trilateration.LeastSquares | RaspPi_Processing/RaspPi_Processing/receive_process.py:112-114 | for every A and b, whatever the rank of A, the result satisfies AᵀA v = Aᵀb, so it is a least-squares solution |
| Trilateration.NormalRhsInColumnSpace | RaspPi_Processing/RaspPi_Processing/receive_process.py:112-114 | Aᵀb always lies in the column space of AᵀA: for a singular AᵀA, the rank-1 and zero formulas still solve the normal equations |
| Trilateration.GramDiagonal | RaspPi_Processing/RaspPi_Processing/receive_process.py:112-114 | the diagonal of AᵀA is non-negative, and a zero diagonal entry makes the matching entry of Aᵀb zero |
| Trilateration.NullDirection | RaspPi_Processing/RaspPi_Processing/receive_process.py:112-114 | a direction that A maps to zero is orthogonal to Aᵀb |
| Trilateration.Cramer | RaspPi_Processing/RaspPi_Processing/receive_process.py:114 | Cramer's rule solves an invertible symmetric 2×2 system |
| Trilateration.ConsistentSumXB | RaspPi_Processing/RaspPi_Processing/receive_process.py:114 | if p satisfies every row, the first entry of Aᵀb equals the first row of AᵀA p |
| Trilateration.ConsistentSumYB | RaspPi_Processing/RaspPi_Processing/receive_process.py:114 | if p satisfies every row, the second entry of Aᵀb equals the second row of AᵀA p |
| Trilateration.CramerUnique | RaspPi_Processing/RaspPi_Processing/receive_process.py:114 | solving AᵀA v = AᵀA p with AᵀA invertible gives back p |
| Trilateration.ExactSolutionRecovered | RaspPi_Processing/RaspPi_Processing/receive_process.py:112-114 | if A has rank 2 and the system has an exact solution, the least-squares solve returns it |
| Trilateration.CorrectedRowHolds | RaspPi_Processing/RaspPi_Processing/receive_process.py:108-111 | with exact distances, the true point satisfies each row of the correctly linearised equation |
| Trilateration.AsWrittenRowHoldsIff | RaspPi_Processing/RaspPi_Processing/receive_process.py:108-111 | with exact distances, the true point satisfies a row as written exactly when `di² == d1²` |
| Trilateration.PairExact | RaspPi_Processing/RaspPi_Processing/receive_process.py:101-109 | exact distances for the samples give exact distances for the reference and any other sample |
| Trilateration.CorrectedSystemSatisfied | RaspPi_Processing/RaspPi_Processing/receive_process.py:100-111 | with exact distances, the true point satisfies every row of the corrected system |
| Trilateration.CorrectedRecoversTruePoint | RaspPi_Processing/RaspPi_Processing/receive_process.py:100-114 | with exact distances and non-collinear nodes, solving the corrected system returns the true point |
| Trilateration.AsWrittenSatisfiedIff | RaspPi_Processing/RaspPi_Processing/receive_process.py:100-111 | with exact distances, the true point satisfies the system the source builds exactly when every distance has the reference distance's square |
| Trilateration.AsWrittenMissesTruePoint | RaspPi_Processing/RaspPi_Processing/receive_process.py:100-114 | nodes (0,0), (10,0), (0,10) with exact distances from (3,4): the source's system solves to (7,6); the corrected one solves to (3,4) |
| Trilateration.CorrectedLocateRecovers | RaspPi_Processing/RaspPi_Processing/receive_process.py:83-117 | with three or more exact distances from non-collinear nodes, the corrected trilateration returns the true point, rounded |
| Trilateration.LocateMissesTruePoint | RaspPi_Processing/RaspPi_Processing/receive_process.py:83-117 | for that example, trilateration as written returns [7.0, 6.0], and the corrected version returns [3.0, 4.0] |
| Trilateration.Locate | RaspPi_Processing/RaspPi_Processing/receive_process.py:83-117 | the position `trilateration` returns, as used by the pipeline: with three or more samples always defined, and both coordinates have one decimal; `LocateMissesTruePoint` shows the as-written sign |
| Trilateration.Trilaterate | RaspPi_Processing/RaspPi_Processing/receive_process.py:83-117 | fewer than three samples take the centroid fallback; otherwise the system built from the first sample is solved and both coordinates rounded |
| Pipeline.SmoothAll | RaspPi_Processing/RaspPi_Processing/receive_process.py:136-144 | one filtered value per reading |
| Pipeline.DistanceSamples | RaspPi_Processing/RaspPi_Processing/receive_process.py:147-154 | one distance sample per reading |
| Pipeline.Report | RaspPi_Processing/RaspPi_Processing/receive_process.py:157-178 | the alert carries the cycle's device id and timestamp; its status is "Safe" exactly when the location is in the safe zone and the alert text exactly when it is not; three or more readings always give a location |
| Pipeline.SmoothReadings | RaspPi_Processing/RaspPi_Processing/receive_process.py:136-144 | the loop feeds the readings to the filter in order; the histories and filtered values are those of `SmoothAll`, and the values the filter has been fed grow by each reading's RSSI under its node, in order (`FedAll`) |
| Pipeline.ToDistances | RaspPi_Processing/RaspPi_Processing/receive_process.py:147-154 | each filtered RSSI is converted to a distance and kept with its node and location, in order |
| Pipeline.Process | RaspPi_Processing/RaspPi_Processing/receive_process.py:127-184 | the filter history advances by the cycle's readings, the values the filter has been fed grow by those readings' RSSI under their nodes (`FedAll`), and the published alert is `Report` of the filtered values |
| Pipeline.SmoothedWithinRange | RaspPi_Processing/RaspPi_Processing/receive_process.py:136-144 | validated RSSI values keep every window, and every filtered value, within [-150, 0] |
| Pipeline.SlideWithin | RaspPi_Processing/RaspPi_Processing/receive_process.py:67-71 | an in-range value slid into in-range windows keeps them all in range |
| Pipeline.DistancesWithinRange | RaspPi_Processing/RaspPi_Processing/receive_process.py:136-154 | every distance derived from validated readings lies in [-3.0, 12.0] |
| Pipeline.OtherWindowsUnchanged | RaspPi_Processing/RaspPi_Processing/receive_process.py:136-144 | the windows of nodes not in the cycle are untouched |
| Pipeline.SharedWindowExample | RaspPi_Processing/RaspPi_Processing/receive_process.py:62-73 | windows are keyed by node only: a -40 left in Node_A's window pulls another device's -80 to -60 |
| Aggregation.NodeIndex | RaspPi_Processing/RaspPi_Processing/receive_process.py:220 | the position of the node's entry, or the end when there is none |
| Aggregation.Store | RaspPi_Processing/RaspPi_Processing/receive_process.py:220-225 | the dictionary assignment `nodes[node_id] = reading`: `StoreOverwrites` and `StoreIdempotent` state that it overwrites in place, keeps positions and appends a new node |
| Aggregation.MaxTimestamp | RaspPi_Processing/RaspPi_Processing/receive_process.py:234 | defined exactly when the buffer is non-empty and `int()` accepts every timestamp; then it is at least every timestamp and equal to one of them |
| Aggregation.Step | RaspPi_Processing/RaspPi_Processing/receive_process.py:192-246 | `on_message` on the buffers of all devices; `RejectedChangesNothing`, `OtherDevicesUntouched`, `BufferedStoresReading`, `ReadyExactlyWhenComplete` and `StepPreservesInvariant` state its properties, and `Aggregator.Receive` is proved equal to it |
| Aggregation.StoreOverwrites | RaspPi_Processing/RaspPi_Processing/receive_process.py:220-225 | storing overwrites only its node's slot: nodes stay distinct, the node set grows by this node, the length grows only for a new node, every other reading and every position is kept |
| Aggregation.StoreIdempotent | RaspPi_Processing/RaspPi_Processing/receive_process.py:220-225 | storing the same reading twice equals storing it once |
| Aggregation.DistinctNodeCount | RaspPi_Processing/RaspPi_Processing/receive_process.py:213-225 | a buffer keyed by node has as many readings as distinct nodes |
| Aggregation.KnownNodeCount | RaspPi_Processing/RaspPi_Processing/receive_process.py:26-31 | there are four known nodes |
| Aggregation.AtMostFourNodes | RaspPi_Processing/RaspPi_Processing/receive_process.py:220-230 | a buffer never holds more than four readings, and holds exactly four when every known node has reported |
| Aggregation.StoredBufferOk | RaspPi_Processing/RaspPi_Processing/receive_process.py:213-225 | the buffer after storing a valid reading has distinct known nodes at their locations, in-range RSSI values and at most four entries |
| Aggregation.KeepsBuffersOk | RaspPi_Processing/RaspPi_Processing/receive_process.py:213-225 | replacing one device's buffer by a well-formed buffer keeps every buffer well formed |
| Aggregation.StepPreservesInvariant | RaspPi_Processing/RaspPi_Processing/receive_process.py:192-246 | every message keeps every buffer well formed: at most three readings between cycles, or four when `int()` failed on a timestamp |
| Aggregation.RejectedChangesNothing | RaspPi_Processing/RaspPi_Processing/receive_process.py:194-204 | an undecodable or invalid message changes no buffer and reports why it was dropped |
| Aggregation.OtherDevicesUntouched | RaspPi_Processing/RaspPi_Processing/receive_process.py:207-225 | a message changes only the buffer of its own device |
| Aggregation.BufferedStoresReading | RaspPi_Processing/RaspPi_Processing/receive_process.py:213-230 | a valid message with outcome Buffered (so not a completed cycle, and not the timestamp-failure outcome) stores its reading in its node's slot; the count is the number of distinct nodes and is below four |
| Aggregation.RepeatedMessageIdempotent | RaspPi_Processing/RaspPi_Processing/receive_process.py:220-230 | re-sending a buffered message changes nothing and triggers no run |
| Aggregation.ReadyExactlyWhenComplete | RaspPi_Processing/RaspPi_Processing/receive_process.py:229-246 | a run happens exactly when all four nodes have reported and every timestamp converts; it carries the four readings in order, its timestamp text is exactly `IntToString` of the largest converted timestamp, i.e. `str(max(int(ts)))`, and the device's buffer is emptied |
| Aggregation.FirstReporterStaysFirst | RaspPi_Processing/RaspPi_Processing/receive_process.py:220-232 | the first node to report in a cycle stays first, so it is the reference node of trilateration |
| Aggregation.MessageAccepted | RaspPi_Processing/RaspPi_Processing/receive_process.py:201-225 | a message for device "tag1" with every key, an in-range numeric RSSI and a known node is accepted, and stores its reading at its node's location |
| Aggregation.CycleStart | RaspPi_Processing/RaspPi_Processing/receive_process.py:213-225 | the first message of device "tag1" (node A, RSSI -60, timestamp 100), with no device buffered yet, creates its buffer with that one reading, count 1 |
| Aggregation.ParseFloatExample | RaspPi_Processing/RaspPi_Processing/receive_process.py:209 | `float("-70.5") == -70.5` |
| Aggregation.ParseIntExample | RaspPi_Processing/RaspPi_Processing/receive_process.py:234 | `int("101") == 101` |
| Aggregation.CycleSecond | RaspPi_Processing/RaspPi_Processing/receive_process.py:220-230 | a second node's reading (numeric-string RSSI and timestamp) is appended, count 2 |
| Aggregation.CycleThird | RaspPi_Processing/RaspPi_Processing/receive_process.py:220-230 | a third node's reading is appended, count 3 |
| Aggregation.CycleMaximum | RaspPi_Processing/RaspPi_Processing/receive_process.py:234 | timestamps 100, "101", 99 and 102 have maximum 102 |
| Aggregation.MaximumText | RaspPi_Processing/RaspPi_Processing/receive_process.py:235 | `str(102) == "102"` |
| Aggregation.CycleLast | RaspPi_Processing/RaspPi_Processing/receive_process.py:229-246 | the fourth node's reading completes the cycle with timestamp "102" and empties the buffer |
| Aggregation.FourNodeCycle | RaspPi_Processing/RaspPi_Processing/receive_process.py:192-246 | nodes A, B, C give counts 1, 2, 3 without a run; node D triggers one run whose entry is exactly device "tag1", timestamp "102" and the four readings as received, in arrival order A, B, C, D; the buffer is empty afterwards |
| Aggregation.Aggregator.constructor | RaspPi_Processing/RaspPi_Processing/receive_process.py:19 | no device has a buffer yet |
| Aggregation.Aggregator.Receive | RaspPi_Processing/RaspPi_Processing/receive_process.py:192-246 | the new buffers and the outcome are those of `Step`, and every buffer stays well formed |
| Aggregation.Aggregator.Accept | RaspPi_Processing/RaspPi_Processing/receive_process.py:207-246 | for a validated message, the new buffers and outcome are those of `Step`, and every buffer stays well formed |
| Aggregation.OnMessage | RaspPi_Processing/RaspPi_Processing/receive_process.py:192-246 | the buffers follow `Step`; a completed cycle advances the filter, feeds it the cycle's readings (`FedAll`) and publishes exactly `Report` of it, always with a location; otherwise the filter is untouched and nothing is published |

## Left out

- The MQTT client is not modelled: connecting, subscribing, the broker address and `client.publish`. The alert that would be published is returned as a value.
- `json.loads` is not modelled. A message arrives already decoded, or as "undecodable". JSON arrays and objects inside a message are not modelled, so a list-valued field (which Python would reject as unhashable or non-numeric) cannot occur.
- A message that decodes to something other than a JSON object is not represented: the payload is always a key-value map. For a number, `true`, `false` or `null`, the key test at line 50 raises `TypeError` outside the `try`, so the exception escapes the callback. A string or an array is refused with "Missing key", unless it contains all four key names. In that case indexing it by "RSSI" fails inside the `try` at lines 52-55, so it is refused as "RSSI is not a valid number". No buffer changes in any of these cases.
- Console output (`print`, `json.dumps` for logging) is not modelled.
- Floating-point arithmetic is not modelled; all arithmetic is exact on reals. So `round(x, 1)` is half-to-even on the exact value, and binary representation effects near ties are not modelled.
- Trilateration.LeastSquares: `np.linalg.lstsq` is modelled by the exact minimum-norm closed form for two unknowns. The contract proves that it is a least-squares solution for every A. For a rank-deficient A (collinear nodes) there are many least-squares solutions, and the model does not prove that it picks the one of minimum norm, as `lstsq` does.
- Trilateration.SolveNormal: for a singular normal matrix it promises the normal equations only when the right-hand side lies in the column space. That is always so for the matrices `LeastSquares` builds (`NormalRhsInColumnSpace`). Minimum norm is not proved.
- `float()` and `int()` on text accept a subset of Python's syntax: an optional sign, decimal digits, and for `float()` one optional decimal point. Surrounding whitespace, underscores, exponents, `inf` and `nan` are not modelled, so such text counts as a conversion failure. In particular `float("nan")` (or a NaN in the JSON) passes the range check at line 56 in the source, because both comparisons with NaN are false: the reading is accepted, and the NaN stays in that node's shared filter window for the next five readings. The model cannot represent NaN, since its arithmetic is exact on reals.
- Device ids are compared as decoded values. Python's dictionary identifies `1`, `1.0` and `True` as the same key; the model treats them as different devices.
- When four nodes have reported but `int()` rejects a timestamp, the source raises out of the callback. The model records this as the outcome `TimestampError` with the four readings left in the buffer, which is the state the source leaves behind. The exception itself is not modelled.
- The fallback centroid divides by a zero total weight when there are no samples, or when the weights cancel (possible only with negative distances). Python raises `ZeroDivisionError` there; the model returns `None`. A completed cycle always has four samples and so takes the least-squares branch.

## Findings

| source | as written | input that shows it | evidently intended | confidence | as-written member | corrected member |
|---|---|---|---|---|---|---|
| RaspPi_Processing/RaspPi_Processing/receive_process.py:111 | the right-hand side adds `di**2 - d1**2` | nodes (0,0), (10,0), (0,10) with exact distances from the true point (3,4): the first row is `20x = 100 + 65 − 25 = 140`, so the solve returns (7.0, 6.0) | subtract `di**2 - d1**2`, which yields (3.0, 4.0); with exact distances and non-collinear nodes the corrected solve always recovers the true point | not executed | Trilateration.LocateMissesTruePoint | Trilateration.CorrectedLocateRecovers |

The pipeline (`Trilateration.Locate`, used by `Pipeline.Report`) keeps the sign as the code has it, because it models the status the receiver actually publishes. The corrected definitions are `Trilateration.RhsCorrected`, `CorrectedRhs` and `LocateCorrected`. `AsWrittenSatisfiedIff` characterises when the as-written system still holds at the true point: only when every node is at the reference node's distance.
