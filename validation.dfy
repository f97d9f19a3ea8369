/** validate_message: the checks an inbound reading must pass before it is buffered. */
module Validation {
  import opened Json
  import opened Config

  /** Keys every message must carry, in the order they are checked. */
  const RequiredKeys: seq<string> := ["device_id", "node_id", "RSSI", "timestamp"]

  /** The reason validate_message reports alongside its verdict. */
  datatype Verdict =
    | Valid
    | MissingKey(key: string)
    | NotANumber
    | OutOfRange(rssi: real)
    | UnknownNode(node: Value)

  /** Index of the first key of keys that payload lacks, if any. */
  function FirstMissing(keys: seq<string>, payload: map<string, Value>): (r: Option<nat>)
    ensures r.None? <==> forall i :: 0 <= i < |keys| ==> keys[i] in payload
    ensures r.Some? ==> r.value < |keys| && keys[r.value] !in payload
    ensures r.Some? ==> forall j :: 0 <= j < r.value ==> keys[j] in payload
  {
    if keys == [] then None
    else if keys[0] !in payload then Some(0)
    else match FirstMissing(keys[1..], payload)
      case None => None
      case Some(i) => Some(i + 1)
  }

  /** The node id names one of the receivers of the fixed table. */
  predicate KnownNode(v: Value) {
    v.Str? && v.s in NodeLocations
  }

  predicate HasRequiredKeys(payload: map<string, Value>) {
    "device_id" in payload && "node_id" in payload && "RSSI" in payload && "timestamp" in payload
  }

  /** Everything a message must satisfy to be accepted. */
  predicate Acceptable(payload: map<string, Value>) {
    && HasRequiredKeys(payload)
    && ToFloat(payload["RSSI"]).Some?
    && RssiMin <= ToFloat(payload["RSSI"]).value <= RssiMax
    && KnownNode(payload["node_id"])
  }

  /** validate_message: the verdict and its reason; accepted exactly when Acceptable. */
  function Validate(payload: map<string, Value>): (r: (bool, Verdict))
    ensures r.0 <==> r.1 == Valid
    ensures r.0 <==> Acceptable(payload)
  {
    assert RequiredKeys[0] == "device_id" && RequiredKeys[1] == "node_id";
    assert RequiredKeys[2] == "RSSI" && RequiredKeys[3] == "timestamp";
    match FirstMissing(RequiredKeys, payload)
    case Some(i) => (false, MissingKey(RequiredKeys[i]))
    case None =>
      match ToFloat(payload["RSSI"])
      case None => (false, NotANumber)
      case Some(rssi) =>
        if rssi < RssiMin || rssi > RssiMax then (false, OutOfRange(rssi))
        else if !KnownNode(payload["node_id"]) then (false, UnknownNode(payload["node_id"]))
        else (true, Valid)
  }

  /**
   * A refused message is reported for the first check that failed: a
   * missing key (the first in the order device_id, node_id, RSSI,
   * timestamp), then an RSSI that is not a number, then an RSSI outside
   * [-150, 0], then an unknown node id.
   */
  lemma ReportsFirstFailure(payload: map<string, Value>)
    ensures var r := Validate(payload).1;
      && (r == MissingKey("device_id") <==> "device_id" !in payload)
      && (r == MissingKey("node_id") <==> "device_id" in payload && "node_id" !in payload)
      && (r == MissingKey("RSSI") <==>
            "device_id" in payload && "node_id" in payload && "RSSI" !in payload)
      && (r == MissingKey("timestamp") <==>
            "device_id" in payload && "node_id" in payload && "RSSI" in payload && "timestamp" !in payload)
      && (r == NotANumber <==> HasRequiredKeys(payload) && ToFloat(payload["RSSI"]).None?)
      && (r.OutOfRange? <==>
            && HasRequiredKeys(payload)
            && ToFloat(payload["RSSI"]).Some?
            && !(RssiMin <= ToFloat(payload["RSSI"]).value <= RssiMax))
      && (r.OutOfRange? ==> r.rssi == ToFloat(payload["RSSI"]).value)
      && (r.UnknownNode? <==>
            && HasRequiredKeys(payload)
            && ToFloat(payload["RSSI"]).Some?
            && RssiMin <= ToFloat(payload["RSSI"]).value <= RssiMax
            && !KnownNode(payload["node_id"]))
      && (r.UnknownNode? ==> r.node == payload["node_id"])
  {
    assert RequiredKeys[0] == "device_id" && RequiredKeys[1] == "node_id";
    assert RequiredKeys[2] == "RSSI" && RequiredKeys[3] == "timestamp";
  }

  /** A message missing several keys is reported for the earliest of them. */
  lemma ReportsEarliestMissingKey()
    ensures Validate(map["RSSI" := Int(-80)]) == (false, MissingKey("device_id"))
    ensures Validate(map["device_id" := Str("D1"), "RSSI" := Int(-80)]) == (false, MissingKey("node_id"))
  {
  }

  /** Range edges are inclusive; a boolean RSSI converts like float(True). */
  lemma RangeExamples()
    ensures Validate(map["device_id" := Str("D1"), "node_id" := Str("Node_A"),
                         "RSSI" := Int(-150), "timestamp" := Int(1)]) == (true, Valid)
    ensures Validate(map["device_id" := Str("D1"), "node_id" := Str("Node_A"),
                         "RSSI" := Bool(true), "timestamp" := Int(1)]) == (false, OutOfRange(1.0))
    ensures Validate(map["device_id" := Str("D1"), "node_id" := Str("Node_E"),
                         "RSSI" := Real(-80.5), "timestamp" := Int(1)]) == (false, UnknownNode(Str("Node_E")))
  {
  }
}
