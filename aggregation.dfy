/**
 * on_message: decode, validate, buffer the latest reading of each node per
 * device, and hand a device's buffer to the pipeline once all four nodes
 * have reported.
 */
module Aggregation {
  import opened Json
  import opened Config
  import opened Validation
  import opened NoiseFilter
  import opened Pipeline

  /** The readings of one device's current cycle, in first-report order. */
  type Buffer = seq<Reading>

  /** What one message did to the aggregator. */
  datatype Outcome =
    | Undecodable              // the payload was not JSON
    | Rejected(reason: Verdict) // validate_message refused it
    | Buffered(count: nat)     // stored; the device now has count nodes
    | TimestampError           // four nodes, but int() fails on a timestamp
    | Ready(entry: AggEntry)   // four nodes: the cycle goes to the pipeline

  // ---------------------------------------------------------------------
  // A device's buffer
  // ---------------------------------------------------------------------

  /** Position of node's reading in buf, or |buf| when it has none. */
  function NodeIndex(buf: Buffer, node: string): (k: nat)
    ensures k <= |buf|
    ensures k < |buf| ==> buf[k].node == node
    ensures forall i :: 0 <= i < k ==> buf[i].node != node
  {
    if buf == [] then 0 else if buf[0].node == node then 0 else 1 + NodeIndex(buf[1..], node)
  }

  /**
   * nodes[node_id] = reading: an existing entry keeps its position and
   * takes the new value; a new node goes at the end.
   */
  function Store(buf: Buffer, r: Reading): Buffer {
    var k := NodeIndex(buf, r.node);
    if k < |buf| then buf[k := r] else buf + [r]
  }

  function BufferOf(buffers: map<Value, Buffer>, device: Value): Buffer {
    if device in buffers then buffers[device] else []
  }

  /** The nodes that have reported in a buffer. */
  function NodeSet(buf: Buffer): set<string> {
    set i | 0 <= i < |buf| :: buf[i].node
  }

  /** No node appears twice, as in a dictionary keyed by node id. */
  predicate DistinctNodes(buf: Buffer) {
    forall i, j :: 0 <= i < j < |buf| ==> buf[i].node != buf[j].node
  }

  /**
   * max(int(n["timestamp"]) for n in buf); None where int() raises on some
   * timestamp, or where the buffer is empty.
   */
  function MaxTimestamp(buf: Buffer): (m: Option<int>)
    ensures m.Some? <==> buf != [] && forall i :: 0 <= i < |buf| ==> ToInt(buf[i].timestamp).Some?
    ensures m.Some? ==> forall i :: 0 <= i < |buf| ==> ToInt(buf[i].timestamp).value <= m.value
    ensures m.Some? ==> exists i :: 0 <= i < |buf| && ToInt(buf[i].timestamp) == m
  {
    if buf == [] then None
    else
      var init := buf[..|buf| - 1];
      var t := ToInt(buf[|buf| - 1].timestamp);
      if init == [] then t
      else match (MaxTimestamp(init), t)
        case (Some(a), Some(b)) => Some(if a >= b then a else b)
        case _ => None
  }

  // ---------------------------------------------------------------------
  // One message
  // ---------------------------------------------------------------------

  /** The reading an accepted message stores. */
  function ReadingOf(payload: map<string, Value>): Reading
    requires Acceptable(payload)
  {
    var node := payload["node_id"].s;
    Reading(node, ToFloat(payload["RSSI"]).value, payload["timestamp"], NodeLocations[node])
  }

  /**
   * on_message on the buffers of all devices. msg is the decoded payload,
   * None where json.loads failed.
   */
  function Step(buffers: map<Value, Buffer>, msg: Option<map<string, Value>>): (map<Value, Buffer>, Outcome) {
    match msg
    case None => (buffers, Undecodable)
    case Some(payload) =>
      var (valid, reason) := Validate(payload);
      if !valid then (buffers, Rejected(reason))
      else
        var device := payload["device_id"];
        var stored := Store(BufferOf(buffers, device), ReadingOf(payload));
        if |stored| != 4 then (buffers[device := stored], Buffered(|stored|))
        else match MaxTimestamp(stored)
          case None => (buffers[device := stored], TimestampError)
          case Some(m) => (buffers[device := []], Ready(AggEntry(device, IntToString(m), stored)))
  }

  /**
   * What holds of every buffer between messages: distinct known nodes at
   * their fixed locations, validated RSSI values, and at most three
   * readings, or four whose timestamps int() cannot all convert.
   */
  predicate BufferOk(buf: Buffer) {
    && DistinctNodes(buf)
    && ReadingsValid(buf)
    && (|buf| <= 3 || (|buf| == 4 && MaxTimestamp(buf).None?))
  }

  /** Every reading comes from a known node at its fixed location, with a validated RSSI. */
  predicate ReadingsValid(buf: Buffer) {
    forall i :: 0 <= i < |buf| ==>
      && buf[i].node in NodeLocations
      && buf[i].location == NodeLocations[buf[i].node]
      && RssiMin <= buf[i].rssi <= RssiMax
  }

  predicate BuffersOk(buffers: map<Value, Buffer>) {
    forall device :: device in buffers ==> BufferOk(buffers[device])
  }

  // ---------------------------------------------------------------------
  // Lemmas about a buffer
  // ---------------------------------------------------------------------

  /**
   * Storing a reading overwrites only its own node's slot: the positions
   * and readings of every other node are kept, a new node is appended, and
   * no node appears twice.
   */
  lemma StoreOverwrites(buf: Buffer, r: Reading)
    requires DistinctNodes(buf)
    ensures var res := Store(buf, r);
            && DistinctNodes(res)
            && NodeSet(res) == NodeSet(buf) + {r.node}
            && |res| == (if r.node in NodeSet(buf) then |buf| else |buf| + 1)
            && res[NodeIndex(res, r.node)] == r
            && (forall i :: 0 <= i < |buf| ==> res[i].node == buf[i].node)
            && (forall i :: 0 <= i < |res| && res[i].node != r.node ==> res[i] == buf[i])
  {
    var k := NodeIndex(buf, r.node);
    var res := Store(buf, r);
    if k < |buf| {
      assert r.node in NodeSet(buf);
      assert NodeSet(res) == NodeSet(buf) by {
        forall n | n in NodeSet(buf) ensures n in NodeSet(res) {
          var i :| 0 <= i < |buf| && buf[i].node == n;
          assert res[i].node == n;
        }
      }
      assert NodeIndex(res, r.node) == k;
    } else {
      assert r.node !in NodeSet(buf);
      assert NodeSet(res) == NodeSet(buf) + {r.node} by {
        assert res[|buf|].node == r.node;
        forall n | n in NodeSet(buf) ensures n in NodeSet(res) {
          var i :| 0 <= i < |buf| && buf[i].node == n;
          assert res[i].node == n;
        }
      }
    }
  }

  /** Storing the same reading twice is the same as storing it once. */
  lemma StoreIdempotent(buf: Buffer, r: Reading)
    requires DistinctNodes(buf)
    ensures Store(Store(buf, r), r) == Store(buf, r)
  {
    StoreOverwrites(buf, r);
    var res := Store(buf, r);
    var k := NodeIndex(res, r.node);
    assert res[k := r] == res;
  }

  /** In a buffer without repeated nodes, every reading names a different node. */
  lemma {:induction false} DistinctNodeCount(buf: Buffer)
    requires DistinctNodes(buf)
    ensures |NodeSet(buf)| == |buf|
  {
    if buf != [] {
      var init := buf[..|buf| - 1];
      DistinctNodeCount(init);
      assert NodeSet(buf) == NodeSet(init) + {buf[|buf| - 1].node};
    }
  }

  lemma {:induction false} SubsetCard(a: set<string>, b: set<string>)
    requires a <= b
    ensures |a| <= |b|
    decreases |a|
  {
    if a != {} {
      var x :| x in a;
      SubsetCard(a - {x}, b - {x});
    }
  }

  lemma KnownNodeCount()
    ensures |NodeLocations.Keys| == 4
  {
    assert NodeLocations.Keys == {"Node_A", "Node_B", "Node_C", "Node_D"};
  }

  /**
   * Readings from distinct known nodes number at most four, and exactly
   * four when every known node has reported.
   */
  lemma AtMostFourNodes(buf: Buffer)
    requires DistinctNodes(buf)
    requires forall i :: 0 <= i < |buf| ==> buf[i].node in NodeLocations
    ensures |buf| <= 4
    ensures |buf| == 4 <==> NodeSet(buf) == NodeLocations.Keys
  {
    DistinctNodeCount(buf);
    KnownNodeCount();
    SubsetCard(NodeSet(buf), NodeLocations.Keys);
    if |buf| == 4 && NodeSet(buf) != NodeLocations.Keys {
      var x :| x in NodeLocations.Keys && x !in NodeSet(buf);
      SubsetCard(NodeSet(buf) + {x}, NodeLocations.Keys);
    }
  }

  // ---------------------------------------------------------------------
  // Lemmas about a message
  // ---------------------------------------------------------------------

  /** The buffer a valid message leaves behind keeps the invariant. */
  lemma StoredBufferOk(buffers: map<Value, Buffer>, payload: map<string, Value>)
    requires BuffersOk(buffers) && Acceptable(payload)
    ensures var stored := Store(BufferOf(buffers, payload["device_id"]), ReadingOf(payload));
            && DistinctNodes(stored)
            && ReadingsValid(stored)
            && |stored| <= 4
  {
    var old_ := BufferOf(buffers, payload["device_id"]);
    var r := ReadingOf(payload);
    StoreOverwrites(old_, r);
    var stored := Store(old_, r);
    forall i | 0 <= i < |stored|
      ensures stored[i].node in NodeLocations && stored[i].location == NodeLocations[stored[i].node]
      ensures RssiMin <= stored[i].rssi <= RssiMax
    {
      if stored[i].node != r.node {
        assert stored[i] == old_[i];
      } else {
        assert stored[i] == r by {
          assert stored[NodeIndex(stored, r.node)] == r;
        }
      }
    }
    AtMostFourNodes(stored);
  }

  lemma KeepsBuffersOk(buffers: map<Value, Buffer>, device: Value, buf: Buffer)
    requires BuffersOk(buffers) && BufferOk(buf)
    ensures BuffersOk(buffers[device := buf])
  {
  }

  /** Every message keeps the invariant of every buffer. */
  lemma StepPreservesInvariant(buffers: map<Value, Buffer>, msg: Option<map<string, Value>>)
    requires BuffersOk(buffers)
    ensures BuffersOk(Step(buffers, msg).0)
  {
    if msg.Some? && Acceptable(msg.value) {
      StoredBufferOk(buffers, msg.value);
    }
  }

  /** An undecodable or invalid message changes nothing. */
  lemma RejectedChangesNothing(buffers: map<Value, Buffer>, msg: Option<map<string, Value>>)
    requires msg.None? || !Acceptable(msg.value)
    ensures Step(buffers, msg).0 == buffers
    ensures msg.None? ==> Step(buffers, msg).1 == Undecodable
    ensures msg.Some? ==> Step(buffers, msg).1 == Rejected(Validate(msg.value).1)
    ensures msg.Some? ==> Validate(msg.value).1 != Valid
  {
  }

  /** A message only ever touches the buffer of its own device. */
  lemma OtherDevicesUntouched(buffers: map<Value, Buffer>, payload: map<string, Value>, device: Value)
    requires "device_id" in payload ==> device != payload["device_id"]
    ensures device in Step(buffers, Some(payload)).0 <==> device in buffers
    ensures BufferOf(Step(buffers, Some(payload)).0, device) == BufferOf(buffers, device)
  {
  }

  /**
   * A valid message that does not complete a cycle leaves its device's
   * buffer with its own reading stored in its node's slot; the count it
   * reports is the number of distinct nodes heard in this cycle.
   */
  lemma BufferedStoresReading(buffers: map<Value, Buffer>, payload: map<string, Value>)
    requires BuffersOk(buffers) && Acceptable(payload)
    requires Step(buffers, Some(payload)).1.Buffered?
    ensures var device := payload["device_id"];
            var before := BufferOf(buffers, device);
            var after := Step(buffers, Some(payload)).0[device];
            && after == Store(before, ReadingOf(payload))
            && Step(buffers, Some(payload)).1.count == |NodeSet(after)| < 4
            && NodeSet(after) == NodeSet(before) + {payload["node_id"].s}
  {
    var before := BufferOf(buffers, payload["device_id"]);
    StoreOverwrites(before, ReadingOf(payload));
    StoredBufferOk(buffers, payload);
    DistinctNodeCount(Store(before, ReadingOf(payload)));
  }

  /** Receiving the same buffered message again changes nothing and repeats the count. */
  lemma RepeatedMessageIdempotent(buffers: map<Value, Buffer>, payload: map<string, Value>)
    requires BuffersOk(buffers)
    requires Step(buffers, Some(payload)).1.Buffered?
    ensures Step(Step(buffers, Some(payload)).0, Some(payload)) == Step(buffers, Some(payload))
  {
    var device := payload["device_id"];
    var before := BufferOf(buffers, device);
    var r := ReadingOf(payload);
    StoreIdempotent(before, r);
    var after := Step(buffers, Some(payload)).0;
    assert after == buffers[device := Store(before, r)];
    assert BufferOf(after, device) == Store(before, r);
    assert after[device := Store(before, r)] == after;
  }

  /**
   * A cycle completes exactly when all four known nodes have reported and
   * int() accepts every timestamp. The entry then holds the four readings
   * in first-report order and carries str() of the largest timestamp, a
   * text int() reads back as that maximum; the device starts a fresh,
   * empty cycle.
   */
  lemma ReadyExactlyWhenComplete(buffers: map<Value, Buffer>, payload: map<string, Value>)
    requires BuffersOk(buffers) && Acceptable(payload)
    ensures var device := payload["device_id"];
            var stored := Store(BufferOf(buffers, device), ReadingOf(payload));
            var (after, out) := Step(buffers, Some(payload));
            && (out.Ready? <==>
                  NodeSet(stored) == NodeLocations.Keys
                  && forall i :: 0 <= i < |stored| ==> ToInt(stored[i].timestamp).Some?)
            && (out.Ready? ==>
                  && out.entry.device == device
                  && out.entry.readings == stored
                  && |stored| == 4
                  && after[device] == []
                  && MaxTimestamp(stored).Some?
                  && out.entry.timestamp == IntToString(MaxTimestamp(stored).value)
                  && ParseIntText(out.entry.timestamp).Some?
                  && (forall i :: 0 <= i < 4 ==>
                        ToInt(stored[i].timestamp).value <= ParseIntText(out.entry.timestamp).value)
                  && (exists i :: 0 <= i < 4 &&
                        ToInt(stored[i].timestamp) == ParseIntText(out.entry.timestamp)))
  {
    var device := payload["device_id"];
    var r := ReadingOf(payload);
    var stored := Store(BufferOf(buffers, device), r);
    StoredBufferOk(buffers, payload);
    AtMostFourNodes(stored);
    if |stored| != 4 {
      StepBuffers(buffers, payload, device, r, stored);
    } else if MaxTimestamp(stored).None? {
      StepStalls(buffers, payload, device, r, stored);
    } else {
      var m := MaxTimestamp(stored).value;
      StepCompletes(buffers, payload, device, r, stored, m);
      IntToStringRoundTrip(m);
    }
  }

  /**
   * The first node to report in a cycle stays first until the cycle
   * completes, so it is the reference node of trilateration.
   */
  lemma FirstReporterStaysFirst(buffers: map<Value, Buffer>, payload: map<string, Value>)
    requires BuffersOk(buffers) && Acceptable(payload)
    requires BufferOf(buffers, payload["device_id"]) != []
    ensures var device := payload["device_id"];
            var (after, out) := Step(buffers, Some(payload));
            && (out.Ready? ==> out.entry.readings[0].node == buffers[device][0].node)
            && (!out.Ready? ==> after[device][0].node == buffers[device][0].node)
  {
    var device := payload["device_id"];
    var before, r := BufferOf(buffers, device), ReadingOf(payload);
    var stored := Store(before, r);
    StoreOverwrites(before, r);
    assert stored[0].node == before[0].node;
    if |stored| != 4 {
      StepBuffers(buffers, payload, device, r, stored);
    } else if MaxTimestamp(stored).None? {
      StepStalls(buffers, payload, device, r, stored);
    } else {
      StepCompletes(buffers, payload, device, r, stored, MaxTimestamp(stored).value);
    }
  }

  function Message(node: string, rssi: Value, timestamp: Value): map<string, Value> {
    map["device_id" := Str("tag1"), "node_id" := Str(node), "RSSI" := rssi, "timestamp" := timestamp]
  }

  /** The readings the four messages of FourNodeCycle store. */
  function CycleReading(node: string, rssi: real, timestamp: Value): Reading
    requires node in NodeLocations
  {
    Reading(node, rssi, timestamp, NodeLocations[node])
  }

  /** A message with every key, an in-range numeric RSSI and a known node is accepted. */
  lemma MessageAccepted(node: string, rssi: Value, value: real, timestamp: Value)
    requires node in NodeLocations && ToFloat(rssi) == Some(value) && RssiMin <= value <= RssiMax
    ensures Validate(Message(node, rssi, timestamp)) == (true, Valid)
    ensures Message(node, rssi, timestamp)["device_id"] == Str("tag1")
    ensures ReadingOf(Message(node, rssi, timestamp)) == CycleReading(node, value, timestamp)
  {
  }

  lemma StepBuffers(buffers: map<Value, Buffer>, payload: map<string, Value>, device: Value, r: Reading, stored: Buffer)
    requires Validate(payload).0 && payload["device_id"] == device
    requires ReadingOf(payload) == r && Store(BufferOf(buffers, device), r) == stored && |stored| != 4
    ensures Step(buffers, Some(payload)) == (buffers[device := stored], Buffered(|stored|))
  {
  }

  lemma StepStalls(buffers: map<Value, Buffer>, payload: map<string, Value>, device: Value, r: Reading, stored: Buffer)
    requires Validate(payload).0 && payload["device_id"] == device
    requires ReadingOf(payload) == r && Store(BufferOf(buffers, device), r) == stored && |stored| == 4
    requires MaxTimestamp(stored).None?
    ensures Step(buffers, Some(payload)) == (buffers[device := stored], TimestampError)
  {
  }

  lemma StepCompletes(buffers: map<Value, Buffer>, payload: map<string, Value>, device: Value, r: Reading, stored: Buffer, m: int)
    requires Validate(payload).0 && payload["device_id"] == device
    requires ReadingOf(payload) == r && Store(BufferOf(buffers, device), r) == stored && |stored| == 4
    requires MaxTimestamp(stored) == Some(m)
    ensures Step(buffers, Some(payload)) == (buffers[device := []], Ready(AggEntry(device, IntToString(m), stored)))
  {
  }

  lemma CycleStart()
    ensures Step(map[], Some(Message("Node_A", Int(-60), Int(100))))
            == (map[Str("tag1") := [CycleReading("Node_A", -60.0, Int(100))]], Buffered(1))
  {
    var r1 := CycleReading("Node_A", -60.0, Int(100));
    MessageAccepted("Node_A", Int(-60), -60.0, Int(100));
    assert Store([], r1) == [r1];
    StepBuffers(map[], Message("Node_A", Int(-60), Int(100)), Str("tag1"), r1, [r1]);
  }

  lemma ParseFloatExample()
    ensures ToFloat(Str("-70.5")) == Some(-70.5)
  {
    assert SplitSign("-70.5") == (true, "70.5");
    assert IndexOf("70.5", '.') == 2;
    assert "70.5"[..2] == "70" && "70"[..1] == "7";
    assert "70.5"[3..] == "5" && "5"[..0] == [];
  }

  lemma ParseIntExample()
    ensures ParseIntText("101") == Some(101)
  {
    assert "101"[..2] == "10" && "10"[..1] == "1" && "1"[..0] == [];
  }

  lemma CycleSecond(r1: Reading)
    requires r1.node == "Node_A"
    ensures Step(map[Str("tag1") := [r1]], Some(Message("Node_B", Str("-70.5"), Str("101"))))
            == (map[Str("tag1") := [r1, CycleReading("Node_B", -70.5, Str("101"))]], Buffered(2))
  {
    ParseFloatExample();
    var r2 := CycleReading("Node_B", -70.5, Str("101"));
    MessageAccepted("Node_B", Str("-70.5"), -70.5, Str("101"));
    assert NodeIndex([r1], "Node_B") == 1;
    assert Store([r1], r2) == [r1, r2];
    var before := map[Str("tag1") := [r1]];
    assert BufferOf(before, Str("tag1")) == [r1];
    StepBuffers(before, Message("Node_B", Str("-70.5"), Str("101")), Str("tag1"), r2, [r1, r2]);
    assert before[Str("tag1") := [r1, r2]] == map[Str("tag1") := [r1, r2]];
  }

  lemma CycleThird(r1: Reading, r2: Reading)
    requires r1.node == "Node_A" && r2.node == "Node_B"
    ensures Step(map[Str("tag1") := [r1, r2]], Some(Message("Node_C", Real(-65.0), Int(99))))
            == (map[Str("tag1") := [r1, r2, CycleReading("Node_C", -65.0, Int(99))]], Buffered(3))
  {
    var r3 := CycleReading("Node_C", -65.0, Int(99));
    MessageAccepted("Node_C", Real(-65.0), -65.0, Int(99));
    assert NodeIndex([r1, r2], "Node_C") == 2;
    assert Store([r1, r2], r3) == [r1, r2, r3];
    var before := map[Str("tag1") := [r1, r2]];
    assert BufferOf(before, Str("tag1")) == [r1, r2];
    StepBuffers(before, Message("Node_C", Real(-65.0), Int(99)), Str("tag1"), r3, [r1, r2, r3]);
    assert before[Str("tag1") := [r1, r2, r3]] == map[Str("tag1") := [r1, r2, r3]];
  }

  lemma CycleMaximum(r1: Reading, r2: Reading, r3: Reading, r4: Reading)
    requires r1.timestamp == Int(100) && r2.timestamp == Str("101")
    requires r3.timestamp == Int(99) && r4.timestamp == Int(102)
    ensures MaxTimestamp([r1, r2, r3, r4]) == Some(102)
  {
    ParseIntExample();
    var buf := [r1, r2, r3, r4];
    assert [r1][..0] == [];
    assert MaxTimestamp([r1]) == Some(100);
    assert [r1, r2][..1] == [r1];
    assert MaxTimestamp([r1, r2]) == Some(101);
    assert [r1, r2, r3][..2] == [r1, r2];
    assert MaxTimestamp([r1, r2, r3]) == Some(101);
    assert buf[..3] == [r1, r2, r3];
  }

  lemma MaximumText()
    ensures IntToString(102) == "102"
  {
    assert NatToString(1) == "1";
    assert NatToString(10) == "10";
  }

  lemma CycleLast(r1: Reading, r2: Reading, r3: Reading)
    requires r1 == CycleReading("Node_A", -60.0, Int(100))
    requires r2 == CycleReading("Node_B", -70.5, Str("101"))
    requires r3 == CycleReading("Node_C", -65.0, Int(99))
    ensures var r4 := CycleReading("Node_D", -80.0, Int(102));
            Step(map[Str("tag1") := [r1, r2, r3]], Some(Message("Node_D", Int(-80), Int(102))))
            == (map[Str("tag1") := []], Ready(AggEntry(Str("tag1"), "102", [r1, r2, r3, r4])))
  {
    var r4 := CycleReading("Node_D", -80.0, Int(102));
    MessageAccepted("Node_D", Int(-80), -80.0, Int(102));
    assert NodeIndex([r1, r2, r3], "Node_D") == 3;
    var buf := [r1, r2, r3, r4];
    assert Store([r1, r2, r3], r4) == buf;
    CycleMaximum(r1, r2, r3, r4);
    MaximumText();
    var before := map[Str("tag1") := [r1, r2, r3]];
    assert BufferOf(before, Str("tag1")) == [r1, r2, r3];
    StepCompletes(before, Message("Node_D", Int(-80), Int(102)), Str("tag1"), r4, buf, 102);
    assert before[Str("tag1") := []] == map[Str("tag1") := []];
  }

  /**
   * Four nodes report for device "tag1" with timestamps 100, "101", 99 and
   * 102: the first three are buffered, the fourth completes the cycle with
   * timestamp "102" and the four readings, as received, in arrival order,
   * and the buffer is empty again.
   */
  lemma FourNodeCycle()
    ensures var (b1, o1) := Step(map[], Some(Message("Node_A", Int(-60), Int(100))));
            var (b2, o2) := Step(b1, Some(Message("Node_B", Str("-70.5"), Str("101"))));
            var (b3, o3) := Step(b2, Some(Message("Node_C", Real(-65.0), Int(99))));
            var (b4, o4) := Step(b3, Some(Message("Node_D", Int(-80), Int(102))));
            && o1 == Buffered(1) && o2 == Buffered(2) && o3 == Buffered(3)
            && o4 == Ready(AggEntry(Str("tag1"), "102",
                                    [CycleReading("Node_A", -60.0, Int(100)),
                                     CycleReading("Node_B", -70.5, Str("101")),
                                     CycleReading("Node_C", -65.0, Int(99)),
                                     CycleReading("Node_D", -80.0, Int(102))]))
            && b4 == map[Str("tag1") := []]
  {
    var r1 := CycleReading("Node_A", -60.0, Int(100));
    var r2 := CycleReading("Node_B", -70.5, Str("101"));
    var r3 := CycleReading("Node_C", -65.0, Int(99));
    CycleStart();
    CycleSecond(r1);
    CycleThird(r1, r2);
    CycleLast(r1, r2, r3);
  }

  // ---------------------------------------------------------------------
  // The aggregator
  // ---------------------------------------------------------------------

  /** aggregated_data: the current cycle's buffer of every device seen. */
  class Aggregator {
    var buffers: map<Value, Buffer>

    ghost predicate Valid()
      reads this
    {
      BuffersOk(buffers)
    }

    constructor ()
      ensures Valid() && buffers == map[]
    {
      buffers := map[];
    }

    /**
     * The aggregation part of on_message: a message that cannot be decoded
     * or validated is dropped; otherwise its reading is stored.
     */
    method Receive(msg: Option<map<string, Value>>) returns (out: Outcome)
      requires Valid()
      modifies this
      ensures Valid()
      ensures (buffers, out) == Step(old(buffers), msg)
    {
      if msg.None? {
        return Undecodable;
      }
      var payload := msg.value;
      var (valid, reason) := Validate(payload);
      if !valid {
        return Rejected(reason);
      }
      out := Accept(payload);
    }

    /**
     * Stores the reading of a validated message over any earlier reading
     * of its node; once four nodes have reported, the buffer becomes an
     * entry with the largest timestamp and is cleared.
     */
    method Accept(payload: map<string, Value>) returns (out: Outcome)
      requires Valid() && Validate(payload).0
      modifies this
      ensures Valid()
      ensures (buffers, out) == Step(old(buffers), Some(payload))
    {
      StoredBufferOk(buffers, payload);
      var device := payload["device_id"];
      var reading := ReadingOf(payload);
      // A device seen for the first time starts from an empty buffer.
      var stored := Store(BufferOf(buffers, device), reading);
      buffers := buffers[device := stored];
      if |stored| == 4 {
        var maxTs := MaxTimestamp(stored);
        if maxTs.None? {
          KeepsBuffersOk(old(buffers), device, stored);
          StepStalls(old(buffers), payload, device, reading, stored);
          return TimestampError;
        }
        var entry := AggEntry(device, IntToString(maxTs.value), stored);
        buffers := buffers[device := []];
        assert buffers == old(buffers)[device := []];
        KeepsBuffersOk(old(buffers), device, []);
        StepCompletes(old(buffers), payload, device, reading, stored, maxTs.value);
        out := Ready(entry);
      } else {
        KeepsBuffersOk(old(buffers), device, stored);
        StepBuffers(old(buffers), payload, device, reading, stored);
        out := Buffered(|stored|);
      }
    }
  }

  /**
   * on_message: the aggregator takes the message and, when it completes a
   * cycle, the pipeline filters, locates and publishes an alert for it.
   * Nothing is published otherwise, and the filter is then untouched.
   */
  method OnMessage(agg: Aggregator, filter: MovingAverage, msg: Option<map<string, Value>>)
    returns (out: Outcome, published: Option<AlertResult>)
    requires agg.Valid() && filter.Valid()
    modifies agg, filter
    ensures agg.Valid() && filter.Valid()
    ensures (agg.buffers, out) == Step(old(agg.buffers), msg)
    ensures out.Ready? ==> filter.history == SmoothAll(old(filter.history), out.entry.readings).0
    ensures out.Ready? ==> filter.fed == FedAll(old(filter.fed), out.entry.readings)
    ensures out.Ready? ==> published == Report(out.entry, SmoothAll(old(filter.history), out.entry.readings).1)
    ensures out.Ready? ==> published.Some?
    ensures !out.Ready? ==> unchanged(filter) && published == None
  {
    out := agg.Receive(msg);
    if out.Ready? {
      published := Process(filter, out.entry);
    } else {
      published := None;
    }
  }
}
