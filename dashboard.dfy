/** The dashboard: a rolling 24-point performance chart, one point per
    minute when generated and one more every two seconds while the system
    is active, and the counts of active edge nodes shown in the status
    banner and the federated-learning card.

    The interval timer is flattened into a `Tick` method that the caller
    invokes; `toLocaleTimeString` is not modelled, so a point carries its
    time in milliseconds rather than its rendered label. */
module Dashboard {
  import NemiStore

  type Time = NemiStore.Time

  const Points := 24
  const Minute := 60000

  datatype PerformancePoint = PerformancePoint(
    time: Time,
    accuracy: real,
    processingTime: real,
    defects: int)

  /** The three draws behind a point. */
  datatype PointDraws = PointDraws(accuracy: real, processingTime: real, defects: real)

  predicate ValidPointDraws(d: PointDraws)
  {
    NemiStore.IsDraw(d.accuracy) && NemiStore.IsDraw(d.processingTime) && NemiStore.IsDraw(d.defects)
  }

  /** A point at `t`: accuracy in [97, 99.5), processing time in [6, 12) ms
      and 0 to 4 defects. */
  function PointAt(d: PointDraws, t: Time): (p: PerformancePoint)
    requires ValidPointDraws(d)
    ensures p.time == t
    ensures 97.0 <= p.accuracy < 99.5 && 6.0 <= p.processingTime < 12.0 && 0 <= p.defects <= 4
  {
    PerformancePoint(t, 97.0 + d.accuracy * 2.5, 6.0 + d.processingTime * 6.0,
                     NemiStore.PickIndex(d.defects, 5))
  }

  /** Point times never decrease along the chart. */
  predicate Chronological(data: seq<PerformancePoint>)
  {
    forall k, j :: 0 <= k < j < |data| ==> data[k].time <= data[j].time
  }

  /** `generatePerformanceData`: 24 points, oldest first, one minute apart,
      the newest at `now`; `draws[k]` is behind the k-th point. */
  method GeneratePerformanceData(draws: seq<PointDraws>, now: Time) returns (data: seq<PerformancePoint>)
    requires |draws| == Points && forall k :: 0 <= k < |draws| ==> ValidPointDraws(draws[k])
    ensures |data| == Points
    ensures forall k :: 0 <= k < Points ==> data[k] == PointAt(draws[k], now - (Points - 1 - k) * Minute)
    ensures forall k, j :: 0 <= k < j < |data| ==> data[j].time - data[k].time == (j - k) * Minute
    ensures data[Points - 1].time == now && Chronological(data)
  {
    data := [];
    var i := Points - 1;
    while i >= 0
      invariant -1 <= i <= Points - 1 && |data| == Points - 1 - i
      invariant forall k :: 0 <= k < |data| ==> data[k] == PointAt(draws[k], now - (Points - 1 - k) * Minute)
    {
      data := data + [PointAt(draws[Points - 1 - i], now - i * Minute)];
      i := i - 1;
    }
  }

  /** `[...prev.slice(1), p]`: the oldest point leaves, `p` comes in last. */
  function Slide(prev: seq<PerformancePoint>, p: PerformancePoint): (r: seq<PerformancePoint>)
    ensures |r| == (if prev == [] then 1 else |prev|)
    ensures r[|r| - 1] == p
    ensures prev != [] ==> r[..|r| - 1] == prev[1..]
  {
    (if prev == [] then [] else prev[1..]) + [p]
  }

  /** Sliding a point no older than the newest keeps the chart's length and
      its chronological order. */
  lemma SlideKeepsChart(prev: seq<PerformancePoint>, p: PerformancePoint)
    requires |prev| == Points && Chronological(prev) && prev[Points - 1].time <= p.time
    ensures |Slide(prev, p)| == Points && Chronological(Slide(prev, p))
    ensures Slide(prev, p)[Points - 1] == p
  {
    var r := Slide(prev, p);
    forall k, j | 0 <= k < j < |r| ensures r[k].time <= r[j].time {
      assert r[k] == prev[k + 1];
      if j < |r| - 1 {
        assert r[j] == prev[j + 1];
      } else {
        assert prev[k + 1].time <= prev[Points - 1].time;
      }
    }
  }

  class DashboardView {
    var performanceData: seq<PerformancePoint>
    var currentTime: Time

    ghost predicate Valid()
      reads this
    {
      |performanceData| == Points && Chronological(performanceData)
      && performanceData[Points - 1].time <= currentTime
    }

    /** The mounted dashboard: a freshly generated chart and the clock at `now`. */
    constructor (draws: seq<PointDraws>, now: Time)
      requires |draws| == Points && forall k :: 0 <= k < |draws| ==> ValidPointDraws(draws[k])
      ensures Valid() && currentTime == now
      ensures forall k :: 0 <= k < Points ==> performanceData[k] == PointAt(draws[k], now - (Points - 1 - k) * Minute)
    {
      var data := GeneratePerformanceData(draws, now);
      performanceData := data;
      currentTime := now;
    }

    /** One two-second tick: the clock is set to `now`; while the system is
        active the chart slides by a point taken at `now`, otherwise it is
        left alone. The chart stays 24 points long and chronological. */
    method Tick(isSystemActive: bool, d: PointDraws, now: Time)
      requires Valid() && ValidPointDraws(d) && currentTime <= now
      modifies this
      ensures Valid() && currentTime == now
      ensures isSystemActive ==> performanceData == Slide(old(performanceData), PointAt(d, now))
      ensures !isSystemActive ==> performanceData == old(performanceData)
    {
      currentTime := now;
      if isSystemActive {
        SlideKeepsChart(performanceData, PointAt(d, now));
        performanceData := Slide(performanceData, PointAt(d, now));
      }
    }
  }

  /** Active nodes in `loc`, counted from the back like ActiveCount. */
  function ActiveIn(nodes: seq<NemiStore.EdgeNode>, loc: NemiStore.Location): (n: nat)
    ensures n <= NemiStore.ActiveCount(nodes) <= |nodes|
    decreases |nodes|
  {
    if nodes == [] then 0
    else
      var last := nodes[|nodes| - 1];
      ActiveIn(nodes[..|nodes| - 1], loc) + (if last.location == loc && last.status == NemiStore.Active then 1 else 0)
  }

  /** The Japan and India counts never add up to more than the active count;
      they add up to it exactly when no active node is in the global location. */
  lemma {:induction false} LocationCountsWithinActive(nodes: seq<NemiStore.EdgeNode>)
    ensures ActiveIn(nodes, NemiStore.Japan) + ActiveIn(nodes, NemiStore.India) + ActiveIn(nodes, NemiStore.Global)
              == NemiStore.ActiveCount(nodes)
    ensures ActiveIn(nodes, NemiStore.Japan) + ActiveIn(nodes, NemiStore.India) <= NemiStore.ActiveCount(nodes)
    decreases |nodes|
  {
    if nodes != [] {
      LocationCountsWithinActive(nodes[..|nodes| - 1]);
    }
  }

  lemma {:induction false} AllActiveCount(nodes: seq<NemiStore.EdgeNode>)
    requires forall i :: 0 <= i < |nodes| ==> nodes[i].status == NemiStore.Active
    ensures NemiStore.ActiveCount(nodes) == |nodes|
    decreases |nodes|
  {
    if nodes != [] {
      AllActiveCount(nodes[..|nodes| - 1]);
    }
  }

  lemma {:induction false} NoneActiveCount(nodes: seq<NemiStore.EdgeNode>)
    requires forall i :: 0 <= i < |nodes| ==> nodes[i].status != NemiStore.Active
    ensures NemiStore.ActiveCount(nodes) == 0
    decreases |nodes|
  {
    if nodes != [] {
      NoneActiveCount(nodes[..|nodes| - 1]);
    }
  }

  /** After START_SYSTEM the banner reads "n of n edge nodes active"; after
      STOP_SYSTEM it reads "0 of n". */
  lemma ActiveCountAfterStartStop(s: NemiStore.State, now: Time)
    ensures NemiStore.ActiveCount(NemiStore.Reduce(s, NemiStore.StartSystem, now).edgeNodes) == |s.edgeNodes|
    ensures NemiStore.ActiveCount(NemiStore.Reduce(s, NemiStore.StopSystem, now).edgeNodes) == 0
    ensures |NemiStore.Reduce(s, NemiStore.StopSystem, now).edgeNodes| == |s.edgeNodes|
  {
    NemiStore.StartSystemEffect(s, now);
    NemiStore.StopSystemEffect(s, now);
    AllActiveCount(NemiStore.Reduce(s, NemiStore.StartSystem, now).edgeNodes);
    NoneActiveCount(NemiStore.Reduce(s, NemiStore.StopSystem, now).edgeNodes);
  }

  /** Starting the system from its initial state shows four active nodes,
      two in Japan and two in India. */
  lemma StartedInitialCounts(t: Time, now: Time)
    ensures var nodes := NemiStore.Reduce(NemiStore.Initial(t), NemiStore.StartSystem, now).edgeNodes;
      && NemiStore.ActiveCount(nodes) == 4
      && ActiveIn(nodes, NemiStore.Japan) == 2 && ActiveIn(nodes, NemiStore.India) == 2
  {
    var s := NemiStore.Initial(t);
    var nodes := NemiStore.Reduce(s, NemiStore.StartSystem, now).edgeNodes;
    ActiveCountAfterStartStop(s, now);
    NemiStore.StartSystemEffect(s, now);
    assert |nodes| == 4;
    assert nodes[0].location == NemiStore.Japan && nodes[1].location == NemiStore.Japan;
    assert nodes[2].location == NemiStore.India && nodes[3].location == NemiStore.India;
    assert forall i :: 0 <= i < 4 ==> nodes[i].status == NemiStore.Active;
    assert nodes[..4] == nodes;
    assert nodes[..3][..2] == nodes[..2];
    assert nodes[..2][..1] == nodes[..1];
    assert nodes[..1][..0] == [];
    assert ActiveIn(nodes[..1], NemiStore.Japan) == 1 && ActiveIn(nodes[..1], NemiStore.India) == 0;
    assert ActiveIn(nodes[..2], NemiStore.Japan) == 2 && ActiveIn(nodes[..2], NemiStore.India) == 0;
    assert ActiveIn(nodes[..3], NemiStore.Japan) == 2 && ActiveIn(nodes[..3], NemiStore.India) == 1;
  }
}
