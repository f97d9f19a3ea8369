/**
 * noise_filter: a moving average over the last WindowSize RSSI values of
 * each node. The history is keyed by node id only, so every device that
 * reports through a node shares that node's window.
 */
module NoiseFilter {
  import opened Config

  /** The window after appending x and, on overflow, evicting the oldest value. */
  function Slide(w: seq<real>, x: real): (r: seq<real>)
    ensures |r| > 0 && r[|r| - 1] == x
    ensures |w| <= WindowSize ==> |r| <= WindowSize
    ensures forall k :: 0 <= k < |r| - 1 ==> r[k] in w
  {
    var appended := w + [x];
    if |appended| > WindowSize then appended[1..] else appended
  }

  /** The last n values of s, or all of s when it is shorter. */
  function LastN(s: seq<real>, n: nat): (r: seq<real>)
    ensures |r| <= n && |r| <= |s|
    ensures |s| <= n ==> r == s
  {
    if |s| <= n then s else s[|s| - n..]
  }

  function Sum(w: seq<real>): real {
    if w == [] then 0.0 else Sum(w[..|w| - 1]) + w[|w| - 1]
  }

  function Mean(w: seq<real>): real
    requires |w| > 0
  {
    Sum(w) / |w| as real
  }

  /** The window of node, empty for a node never seen. */
  function WindowOf(history: map<string, seq<real>>, node: string): seq<real> {
    if node in history then history[node] else []
  }

  /** Feeding one more value keeps the window equal to the last WindowSize values fed. */
  lemma SlideKeepsLastValues(fed: seq<real>, x: real)
    ensures Slide(LastN(fed, WindowSize), x) == LastN(fed + [x], WindowSize)
  {
    var s := fed + [x];
    if |fed| >= WindowSize {
      assert LastN(fed, WindowSize) + [x] == s[|s| - WindowSize - 1..];
    }
  }

  /** The window reached by feeding xs one by one, starting from w. */
  function FeedAll(w: seq<real>, xs: seq<real>): seq<real>
    decreases |xs|
  {
    if xs == [] then w else FeedAll(Slide(w, xs[0]), xs[1..])
  }

  lemma {:induction false} FeedAllKeepsLastValues(fed: seq<real>, xs: seq<real>)
    ensures FeedAll(LastN(fed, WindowSize), xs) == LastN(fed + xs, WindowSize)
    decreases |xs|
  {
    if xs == [] {
      assert fed + xs == fed;
    } else {
      SlideKeepsLastValues(fed, xs[0]);
      FeedAllKeepsLastValues(fed + [xs[0]], xs[1..]);
      assert fed + [xs[0]] + xs[1..] == fed + xs;
    }
  }

  /**
   * Feeding WindowSize + k values to a fresh node leaves exactly the last
   * WindowSize of them, in arrival order.
   */
  lemma FeedFromEmpty(xs: seq<real>)
    ensures FeedAll([], xs) == LastN(xs, WindowSize)
    ensures |xs| >= WindowSize ==> FeedAll([], xs) == xs[|xs| - WindowSize..]
  {
    FeedAllKeepsLastValues([], xs);
    assert [] + xs == xs;
  }

  lemma {:induction false} SumBounds(w: seq<real>, lo: real, hi: real)
    requires forall i :: 0 <= i < |w| ==> lo <= w[i] <= hi
    ensures |w| as real * lo <= Sum(w) <= |w| as real * hi
  {
    if w != [] {
      SumBounds(w[..|w| - 1], lo, hi);
    }
  }

  /** The mean of a window lies between its smallest and largest possible value. */
  lemma MeanBounds(w: seq<real>, lo: real, hi: real)
    requires |w| > 0
    requires forall i :: 0 <= i < |w| ==> lo <= w[i] <= hi
    ensures lo <= Mean(w) <= hi
  {
    SumBounds(w, lo, hi);
    var n := |w| as real;
    assert Mean(w) * n == Sum(w);
  }

  /** The per-node RSSI histories of the moving-average filter. */
  class MovingAverage {
    /** The window of each node seen so far. */
    var history: map<string, seq<real>>
    /** Every value ever fed for each node, in arrival order. */
    ghost var fed: map<string, seq<real>>

    ghost predicate Valid()
      reads this
    {
      && history.Keys == fed.Keys
      && forall node :: node in history ==>
           |fed[node]| > 0 && history[node] == LastN(fed[node], WindowSize)
    }

    constructor ()
      ensures Valid()
      ensures history == map[] && fed == map[]
    {
      history := map[];
      fed := map[];
    }

    /**
     * noise_filter(node, rssi): appends rssi to the node's window, evicts
     * the oldest value on overflow and returns the mean of the window.
     * No other node's window changes.
     */
    method Filter(node: string, rssi: real) returns (avg: real)
      requires Valid()
      modifies this
      ensures Valid()
      ensures history == old(history)[node := Slide(WindowOf(old(history), node), rssi)]
      ensures fed == old(fed)[node := (if node in old(fed) then old(fed)[node] else []) + [rssi]]
      ensures 1 <= |history[node]| <= WindowSize
      ensures history[node] == LastN(fed[node], WindowSize)
      ensures avg == Mean(history[node])
    {
      var prior := WindowOf(history, node);
      ghost var priorFed := if node in fed then fed[node] else [];
      assert prior == LastN(priorFed, WindowSize);
      var window := prior + [rssi];
      if |window| > WindowSize {
        window := window[1..];
      }
      SlideKeepsLastValues(priorFed, rssi);
      history := history[node := window];
      fed := fed[node := priorFed + [rssi]];
      avg := Sum(window) / |window| as real;
    }
  }
}
