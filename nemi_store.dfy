/** The shared NEMI application store: its state, its closed set of actions,
    the reducer that applies them, and the simulation helpers that read a
    snapshot of the state and decide which actions to dispatch.

    Timestamps are abstract milliseconds; every `new Date()` of the store is
    an explicit `now` parameter. Each `Math.random()` draw is a real
    parameter in [0, 1). Accuracies and times are exact reals. */
module NemiStore {

  datatype Option<T> = None | Some(value: T)

  type Time = int

  /** A `Math.random()` result. */
  predicate IsDraw(r: real) { 0.0 <= r < 1.0 }

  predicate AllDraws(ds: seq<real>)
  {
    forall i :: 0 <= i < |ds| ==> IsDraw(ds[i])
  }

  function Min(a: real, b: real): (r: real)
    ensures r <= a && r <= b && (r == a || r == b)
  {
    if a <= b then a else b
  }

  function Max(a: real, b: real): (r: real)
    ensures r >= a && r >= b && (r == a || r == b)
  {
    if a >= b then a else b
  }

  // ---------------------------------------------------------------------
  // Data model

  datatype NodeStatus = Active | Inactive | Learning
  datatype Location = Japan | India | Global

  datatype EdgeNode = EdgeNode(
    id: string,
    status: NodeStatus,
    location: Location,
    processingTime: real,
    accuracy: real,
    defectsDetected: int,
    lastUpdate: Time)

  datatype MetricStatus = Compliant | Warning | Violation
  datatype Trend = Up | Down | Stable

  datatype ComplianceMetric = ComplianceMetric(
    id: string,
    name: string,
    value: real,
    status: MetricStatus,
    trend: Trend,
    timestamp: Time)

  /** Opaque payload owned by the temporal-analysis view (`null` at start). */
  datatype Payload = Null | Data(handle: nat)

  /** Opaque handle to the inference model; it is never invoked. */
  datatype ModelHandle = ModelHandle(handle: nat)

  datatype State = State(
    isSystemActive: bool,
    edgeNodes: seq<EdgeNode>,
    globalAccuracy: real,
    totalDefectsDetected: int,
    averageProcessingTime: real,
    privacyScore: real,
    federatedLearningRounds: int,
    complianceMetrics: seq<ComplianceMetric>,
    temporalAnalysis: map<string, Payload>,
    aiModel: Option<ModelHandle>,
    isModelLoading: bool)

  /** A `Partial<EdgeNode>`: each field is either supplied or absent. */
  datatype NodeUpdates = NodeUpdates(
    id: Option<string>,
    status: Option<NodeStatus>,
    location: Option<Location>,
    processingTime: Option<real>,
    accuracy: Option<real>,
    defectsDetected: Option<int>,
    lastUpdate: Option<Time>)

  const NoUpdates := NodeUpdates(None, None, None, None, None, None, None)

  datatype Action =
    | StartSystem
    | StopSystem
    | UpdateNode(nodeId: string, updates: NodeUpdates)
    | AddDefectDetection(nodeId: string, count: int)
    | UpdateComplianceMetric(metric: ComplianceMetric)
    | SetModel(model: ModelHandle)
    | SetModelLoading(loading: bool)
    | FederatedLearningRound
    | UpdateTemporalData(scale: string, data: Payload)

  /** An action together with the clock reading at which it is reduced. */
  datatype Event = Event(action: Action, at: Time)

  const ScaleKeys: set<string> := {"microsecond", "second", "minute", "hour", "day"}

  /** The four seed nodes, all inactive, stamped with the load time `t`. */
  function InitialNodes(t: Time): (r: seq<EdgeNode>)
    ensures |r| == 4
    ensures forall i :: 0 <= i < |r| ==> r[i].status == Inactive && r[i].defectsDetected == 0
  {
    [ EdgeNode("node-japan-01", Inactive, Japan, 8.3, 99.7, 0, t),
      EdgeNode("node-japan-02", Inactive, Japan, 7.9, 99.8, 0, t),
      EdgeNode("node-india-01", Inactive, India, 9.1, 99.5, 0, t),
      EdgeNode("node-india-02", Inactive, India, 8.7, 99.6, 0, t) ]
  }

  function InitialMetrics(t: Time): seq<ComplianceMetric>
  {
    [ ComplianceMetric("safety-compliance", "Safety Compliance", 98.5, Compliant, Up, t),
      ComplianceMetric("quality-control", "Quality Control", 97.2, Compliant, Stable, t),
      ComplianceMetric("environmental", "Environmental", 95.8, Warning, Down, t) ]
  }

  /** The store's initial snapshot; `t` is the module load time. */
  function Initial(t: Time): (s: State)
    ensures !s.isSystemActive && s.totalDefectsDetected == 0 && s.federatedLearningRounds == 0
    ensures s.globalAccuracy == 99.7 && s.privacyScore == 100.0 && s.averageProcessingTime == 8.5
    ensures s.temporalAnalysis.Keys == ScaleKeys && |s.complianceMetrics| == 3
  {
    State(false, InitialNodes(t), 99.7, 0, 8.5, 100.0, 0, InitialMetrics(t),
          map k | k in ScaleKeys :: Null, None, false)
  }

  // ---------------------------------------------------------------------
  // The reducer

  /** `{ ...node, ...updates, lastUpdate: now }`: the supplied fields win,
      the absent ones are kept, and the stamp is `now` even when the update
      supplies one. */
  function Merge(node: EdgeNode, u: NodeUpdates, now: Time): (r: EdgeNode)
    ensures r.lastUpdate == now
    ensures u == NoUpdates ==> r == node.(lastUpdate := now)
    ensures u.id.None? ==> r.id == node.id
    ensures u.status.Some? ==> r.status == u.status.value
    ensures u.status.None? ==> r.status == node.status
  {
    EdgeNode(
      if u.id.Some? then u.id.value else node.id,
      if u.status.Some? then u.status.value else node.status,
      if u.location.Some? then u.location.value else node.location,
      if u.processingTime.Some? then u.processingTime.value else node.processingTime,
      if u.accuracy.Some? then u.accuracy.value else node.accuracy,
      if u.defectsDetected.Some? then u.defectsDetected.value else node.defectsDetected,
      now)
  }

  /** Merging the same update twice is merging it once, at the later stamp. */
  lemma MergeTwice(node: EdgeNode, u: NodeUpdates, t1: Time, t2: Time)
    ensures Merge(Merge(node, u, t1), u, t2) == Merge(node, u, t2)
  {
  }

  function StartNodes(nodes: seq<EdgeNode>, now: Time): seq<EdgeNode>
  {
    seq(|nodes|, i requires 0 <= i < |nodes| => nodes[i].(status := Active, lastUpdate := now))
  }

  function StopNodes(nodes: seq<EdgeNode>): seq<EdgeNode>
  {
    seq(|nodes|, i requires 0 <= i < |nodes| => nodes[i].(status := Inactive))
  }

  function UpdateNodes(nodes: seq<EdgeNode>, id: string, u: NodeUpdates, now: Time): seq<EdgeNode>
  {
    seq(|nodes|, i requires 0 <= i < |nodes| =>
      if nodes[i].id == id then Merge(nodes[i], u, now) else nodes[i])
  }

  function AddDefects(nodes: seq<EdgeNode>, id: string, count: int): seq<EdgeNode>
  {
    seq(|nodes|, i requires 0 <= i < |nodes| =>
      if nodes[i].id == id then nodes[i].(defectsDetected := nodes[i].defectsDetected + count)
      else nodes[i])
  }

  function ReplaceMetric(ms: seq<ComplianceMetric>, m: ComplianceMetric): seq<ComplianceMetric>
  {
    seq(|ms|, i requires 0 <= i < |ms| => if ms[i].id == m.id then m else ms[i])
  }

  /** `nemiReducer`: every action is total, keeps the node and metric lists
      the same length, and never changes the privacy score or the average
      processing time. */
  function Reduce(s: State, a: Action, now: Time): (r: State)
    ensures |r.edgeNodes| == |s.edgeNodes| && |r.complianceMetrics| == |s.complianceMetrics|
    ensures r.privacyScore == s.privacyScore && r.averageProcessingTime == s.averageProcessingTime
    ensures r.federatedLearningRounds >= s.federatedLearningRounds
    ensures r.globalAccuracy >= s.globalAccuracy || r.globalAccuracy == 99.9
  {
    match a
    case StartSystem =>
      s.(isSystemActive := true, edgeNodes := StartNodes(s.edgeNodes, now))
    case StopSystem =>
      s.(isSystemActive := false, edgeNodes := StopNodes(s.edgeNodes))
    case UpdateNode(id, u) =>
      s.(edgeNodes := UpdateNodes(s.edgeNodes, id, u, now))
    case AddDefectDetection(id, count) =>
      s.(totalDefectsDetected := s.totalDefectsDetected + count,
         edgeNodes := AddDefects(s.edgeNodes, id, count))
    case UpdateComplianceMetric(m) =>
      s.(complianceMetrics := ReplaceMetric(s.complianceMetrics, m))
    case SetModel(model) =>
      s.(aiModel := Some(model), isModelLoading := false)
    case SetModelLoading(b) =>
      s.(isModelLoading := b)
    case FederatedLearningRound =>
      s.(federatedLearningRounds := s.federatedLearningRounds + 1,
         globalAccuracy := Min(99.9, s.globalAccuracy + 0.1))
    case UpdateTemporalData(scale, data) =>
      s.(temporalAnalysis := s.temporalAnalysis[scale := data])
  }

  /** Reduce a sequence of dispatched events in dispatch order. */
  function Run(s: State, evs: seq<Event>): (r: State)
    ensures evs == [] ==> r == s
    ensures |evs| == 1 ==> r == Reduce(s, evs[0].action, evs[0].at)
    decreases |evs|
  {
    if evs == [] then s else Run(Reduce(s, evs[0].action, evs[0].at), evs[1..])
  }

  /** Dispatching `a` and then `b` is running `a`, then running `b` on the
      result. */
  lemma {:induction false} RunConcat(s: State, a: seq<Event>, b: seq<Event>)
    ensures Run(s, a + b) == Run(Run(s, a), b)
    decreases |a|
  {
    if a != [] {
      assert (a + b)[0] == a[0] && (a + b)[1..] == a[1..] + b;
      RunConcat(Reduce(s, a[0].action, a[0].at), a[1..], b);
    } else {
      assert a + b == b;
    }
  }

  /** The sum of the `count`s of all ADD_DEFECT_DETECTION events. */
  function DispatchedDefects(evs: seq<Event>): int
    decreases |evs|
  {
    if evs == [] then 0
    else (if evs[0].action.AddDefectDetection? then evs[0].action.count else 0)
         + DispatchedDefects(evs[1..])
  }

  /** The number of FEDERATED_LEARNING_ROUND events. */
  function RoundEvents(evs: seq<Event>): (n: nat)
    ensures n <= |evs|
    decreases |evs|
  {
    if evs == [] then 0
    else (if evs[0].action.FederatedLearningRound? then 1 else 0) + RoundEvents(evs[1..])
  }

  /** The sum of every node's `defectsDetected` counter. */
  function NodeDefectSum(nodes: seq<EdgeNode>): int
    decreases |nodes|
  {
    if nodes == [] then 0 else nodes[0].defectsDetected + NodeDefectSum(nodes[1..])
  }

  /** How many nodes carry the given id. */
  function IdCount(nodes: seq<EdgeNode>, id: string): (n: nat)
    ensures n <= |nodes|
    ensures n == 0 <==> forall i :: 0 <= i < |nodes| ==> nodes[i].id != id
    decreases |nodes|
  {
    if nodes == [] then 0 else (if nodes[0].id == id then 1 else 0) + IdCount(nodes[1..], id)
  }

  predicate UniqueIds(nodes: seq<EdgeNode>)
  {
    forall i, j :: 0 <= i < j < |nodes| ==> nodes[i].id != nodes[j].id
  }

  /** The store's seed nodes carry four different ids. */
  lemma InitialUniqueIds(t: Time)
    ensures UniqueIds(InitialNodes(t))
  {
    var nodes := InitialNodes(t);
    assert nodes[0].id[5] == 'j' && nodes[1].id[5] == 'j' && nodes[2].id[5] == 'i' && nodes[3].id[5] == 'i';
    assert nodes[0].id[12] == '1' && nodes[1].id[12] == '2' && nodes[2].id[12] == '1' && nodes[3].id[12] == '2';
  }

  // ---------------------------------------------------------------------
  // Properties of single actions

  /** ADD_DEFECT_DETECTION adds `count` to the aggregate whatever the id,
      bumps exactly the nodes carrying that id, and changes nothing else. */
  lemma AddDefectDetectionEffect(s: State, id: string, count: int, now: Time)
    ensures var r := Reduce(s, AddDefectDetection(id, count), now);
      && r.totalDefectsDetected == s.totalDefectsDetected + count
      && |r.edgeNodes| == |s.edgeNodes|
      && (forall i :: 0 <= i < |s.edgeNodes| ==>
            r.edgeNodes[i] == if s.edgeNodes[i].id == id
                              then s.edgeNodes[i].(defectsDetected := s.edgeNodes[i].defectsDetected + count)
                              else s.edgeNodes[i])
      && r == s.(totalDefectsDetected := r.totalDefectsDetected, edgeNodes := r.edgeNodes)
  {
  }

  /** The node counters together grow by `count` once per node carrying the id. */
  lemma {:induction false} AddDefectsNodeSum(nodes: seq<EdgeNode>, id: string, count: int)
    ensures NodeDefectSum(AddDefects(nodes, id, count)) == NodeDefectSum(nodes) + count * IdCount(nodes, id)
    decreases |nodes|
  {
    if nodes != [] {
      var rest := nodes[1..];
      var c := if nodes[0].id == id then 1 else 0;
      AddDefectsUnfold(nodes, id, count);
      AddDefectsNodeSum(rest, id, count);
      assert IdCount(nodes, id) == c + IdCount(rest, id);
      assert count * IdCount(nodes, id) == count * c + count * IdCount(rest, id);
    }
  }

  lemma AddDefectsUnfold(nodes: seq<EdgeNode>, id: string, count: int)
    requires nodes != []
    ensures var after := AddDefects(nodes, id, count);
      && after != [] && after[1..] == AddDefects(nodes[1..], id, count)
      && NodeDefectSum(after) == after[0].defectsDetected + NodeDefectSum(after[1..])
      && after[0].defectsDetected == nodes[0].defectsDetected + count * (if nodes[0].id == id then 1 else 0)
  {
    var after := AddDefects(nodes, id, count);
    assert after[1..] == AddDefects(nodes[1..], id, count);
  }

  /** With a known, unique id the aggregate and the node counters move together. */
  lemma AddDefectKnownUniqueId(s: State, id: string, count: int, now: Time)
    requires IdCount(s.edgeNodes, id) == 1
    ensures var r := Reduce(s, AddDefectDetection(id, count), now);
      NodeDefectSum(r.edgeNodes) - NodeDefectSum(s.edgeNodes)
        == r.totalDefectsDetected - s.totalDefectsDetected
  {
    AddDefectsNodeSum(s.edgeNodes, id, count);
  }

  /** With an id no node carries, only the aggregate moves: the total no
      longer equals the sum of the node counters once count != 0. */
  lemma AddDefectUnknownId(s: State, id: string, count: int, now: Time)
    requires IdCount(s.edgeNodes, id) == 0
    ensures var r := Reduce(s, AddDefectDetection(id, count), now);
      r.edgeNodes == s.edgeNodes && r.totalDefectsDetected == s.totalDefectsDetected + count
  {
    var r := Reduce(s, AddDefectDetection(id, count), now);
    assert r.edgeNodes == s.edgeNodes;
  }

  /** The edge view's 'edge-demo-node' is no node of the initial store, so
      after it reports two detections the total is 2 while every node
      counter is still 0. */
  lemma EdgeDemoNodeDivergence(t: Time, now: Time)
    ensures var r := Reduce(Initial(t), AddDefectDetection("edge-demo-node", 2), now);
      r.totalDefectsDetected == 2 && NodeDefectSum(r.edgeNodes) == 0
  {
    var s := Initial(t);
    assert IdCount(s.edgeNodes, "edge-demo-node") == 0 by {
      assert forall i :: 0 <= i < |s.edgeNodes| ==> s.edgeNodes[i].id != "edge-demo-node";
    }
    AddDefectUnknownId(s, "edge-demo-node", 2, now);
    ZeroCountersSumZero(s.edgeNodes);
  }

  lemma {:induction false} ZeroCountersSumZero(nodes: seq<EdgeNode>)
    requires forall i :: 0 <= i < |nodes| ==> nodes[i].defectsDetected == 0
    ensures NodeDefectSum(nodes) == 0
    decreases |nodes|
  {
    if nodes != [] {
      ZeroCountersSumZero(nodes[1..]);
    }
  }

  /** UPDATE_NODE: an unknown id leaves the node list unchanged; a known id
      gets exactly the supplied fields, and `lastUpdate := now` overrides any
      supplied `lastUpdate`. Nothing outside the node list changes. */
  lemma UpdateNodeEffect(s: State, id: string, u: NodeUpdates, now: Time)
    ensures var r := Reduce(s, UpdateNode(id, u), now);
      && r == s.(edgeNodes := r.edgeNodes)
      && |r.edgeNodes| == |s.edgeNodes|
      && (IdCount(s.edgeNodes, id) == 0 ==> r.edgeNodes == s.edgeNodes)
      && (forall i :: 0 <= i < |s.edgeNodes| && s.edgeNodes[i].id != id ==> r.edgeNodes[i] == s.edgeNodes[i])
      && (forall i :: 0 <= i < |s.edgeNodes| && s.edgeNodes[i].id == id ==>
            var n, m := s.edgeNodes[i], r.edgeNodes[i];
            && m.lastUpdate == now
            && m.id == (if u.id.Some? then u.id.value else n.id)
            && m.status == (if u.status.Some? then u.status.value else n.status)
            && m.location == (if u.location.Some? then u.location.value else n.location)
            && m.processingTime == (if u.processingTime.Some? then u.processingTime.value else n.processingTime)
            && m.accuracy == (if u.accuracy.Some? then u.accuracy.value else n.accuracy)
            && m.defectsDetected == (if u.defectsDetected.Some? then u.defectsDetected.value else n.defectsDetected))
  {
    var r := Reduce(s, UpdateNode(id, u), now);
    if IdCount(s.edgeNodes, id) == 0 {
      assert r.edgeNodes == s.edgeNodes;
    }
  }

  /** An update that supplies no field re-stamps the matching nodes only. */
  lemma EmptyUpdateOnlyStamps(s: State, id: string, now: Time)
    ensures var r := Reduce(s, UpdateNode(id, NoUpdates), now);
      forall i :: 0 <= i < |s.edgeNodes| ==>
        r.edgeNodes[i] == if s.edgeNodes[i].id == id then s.edgeNodes[i].(lastUpdate := now)
                          else s.edgeNodes[i]
  {
  }

  /** START_SYSTEM activates the system and every node, stamping each; the
      other node fields and the rest of the state are kept. */
  lemma StartSystemEffect(s: State, now: Time)
    ensures var r := Reduce(s, StartSystem, now);
      && r.isSystemActive
      && r == s.(isSystemActive := true, edgeNodes := r.edgeNodes)
      && forall i :: 0 <= i < |s.edgeNodes| ==>
           r.edgeNodes[i] == s.edgeNodes[i].(status := Active, lastUpdate := now)
  {
  }

  /** STOP_SYSTEM deactivates the system and every node without touching
      `lastUpdate` or any other field. */
  lemma StopSystemEffect(s: State, now: Time)
    ensures var r := Reduce(s, StopSystem, now);
      && !r.isSystemActive
      && r == s.(isSystemActive := false, edgeNodes := r.edgeNodes)
      && forall i :: 0 <= i < |s.edgeNodes| ==> r.edgeNodes[i] == s.edgeNodes[i].(status := Inactive)
  {
  }

  lemma StopSystemIdempotent(s: State, t1: Time, t2: Time)
    ensures Reduce(Reduce(s, StopSystem, t1), StopSystem, t2) == Reduce(s, StopSystem, t1)
  {
    var r1 := Reduce(s, StopSystem, t1);
    var r2 := Reduce(r1, StopSystem, t2);
    assert r2.edgeNodes == r1.edgeNodes;
  }

  /** Stopping the initial (already inactive) store is the identity. */
  lemma StopSystemFromInitial(t: Time, now: Time)
    ensures Reduce(Initial(t), StopSystem, now) == Initial(t)
  {
    var s := Initial(t);
    assert Reduce(s, StopSystem, now).edgeNodes == s.edgeNodes;
  }

  /** START_SYSTEM then STOP_SYSTEM leaves every node inactive, as in the
      initial snapshot, and keeps the start stamp. */
  lemma StartThenStop(s: State, t1: Time, t2: Time)
    ensures var r := Reduce(Reduce(s, StartSystem, t1), StopSystem, t2);
      && !r.isSystemActive && |r.edgeNodes| == |s.edgeNodes|
      && forall i :: 0 <= i < |r.edgeNodes| ==>
           r.edgeNodes[i] == s.edgeNodes[i].(status := Inactive, lastUpdate := t1)
  {
  }

  /** START_SYSTEM then STOP_SYSTEM on the initial store gives back the
      initial store, except for the restamped nodes. */
  lemma StartThenStopFromInitial(t: Time, t1: Time, t2: Time)
    ensures Reduce(Reduce(Initial(t), StartSystem, t1), StopSystem, t2) == Initial(t).(edgeNodes := InitialNodes(t1))
  {
    var r := Reduce(Reduce(Initial(t), StartSystem, t1), StopSystem, t2);
    assert r.edgeNodes == InitialNodes(t1);
  }

  /** FEDERATED_LEARNING_ROUND counts one round and moves the accuracy up by
      0.1, capped at 99.9; nothing else changes. */
  lemma FederatedLearningRoundEffect(s: State, now: Time)
    ensures var r := Reduce(s, FederatedLearningRound, now);
      && r.federatedLearningRounds == s.federatedLearningRounds + 1
      && r.globalAccuracy == (if s.globalAccuracy + 0.1 <= 99.9 then s.globalAccuracy + 0.1 else 99.9)
      && r == s.(federatedLearningRounds := r.federatedLearningRounds, globalAccuracy := r.globalAccuracy)
      && (s.globalAccuracy <= 99.9 ==> s.globalAccuracy <= r.globalAccuracy <= 99.9)
  {
  }

  /** UPDATE_COMPLIANCE_METRIC replaces wholesale every metric with the
      payload's id; an unknown id is a no-op. */
  lemma UpdateComplianceMetricEffect(s: State, m: ComplianceMetric, now: Time)
    ensures var r := Reduce(s, UpdateComplianceMetric(m), now);
      && r == s.(complianceMetrics := r.complianceMetrics)
      && |r.complianceMetrics| == |s.complianceMetrics|
      && (forall i :: 0 <= i < |s.complianceMetrics| ==>
            r.complianceMetrics[i] == if s.complianceMetrics[i].id == m.id then m else s.complianceMetrics[i])
      && ((forall i :: 0 <= i < |s.complianceMetrics| ==> s.complianceMetrics[i].id != m.id) ==> r == s)
  {
    var r := Reduce(s, UpdateComplianceMetric(m), now);
    if forall i :: 0 <= i < |s.complianceMetrics| ==> s.complianceMetrics[i].id != m.id {
      assert r.complianceMetrics == s.complianceMetrics;
    }
  }

  /** SET_MODEL stores the handle and clears the loading flag;
      SET_MODEL_LOADING changes only that flag. */
  lemma ModelActionsEffect(s: State, model: ModelHandle, b: bool, now: Time)
    ensures Reduce(s, SetModel(model), now) == s.(aiModel := Some(model), isModelLoading := false)
    ensures Reduce(s, SetModelLoading(b), now) == s.(isModelLoading := b)
  {
  }

  /** UPDATE_TEMPORAL_DATA sets exactly the key `scale`, for any string, and
      keeps every other key and every other field. */
  lemma UpdateTemporalDataEffect(s: State, scale: string, data: Payload, now: Time)
    ensures var r := Reduce(s, UpdateTemporalData(scale, data), now);
      && r == s.(temporalAnalysis := r.temporalAnalysis)
      && r.temporalAnalysis.Keys == s.temporalAnalysis.Keys + {scale}
      && r.temporalAnalysis[scale] == data
      && forall k :: k in s.temporalAnalysis && k != scale ==> r.temporalAnalysis[k] == s.temporalAnalysis[k]
  {
  }

  // ---------------------------------------------------------------------
  // Properties of arbitrary action sequences

  /** The aggregate defect total equals its start value plus every count
      ever dispatched, whatever ids the events name. */
  lemma {:induction false} TotalTracksDispatchedCounts(s: State, evs: seq<Event>)
    ensures Run(s, evs).totalDefectsDetected == s.totalDefectsDetected + DispatchedDefects(evs)
    decreases |evs|
  {
    if evs != [] {
      TotalTracksDispatchedCounts(Reduce(s, evs[0].action, evs[0].at), evs[1..]);
    }
  }

  /** The round counter grows by exactly the number of round events. */
  lemma {:induction false} RoundsCountRoundEvents(s: State, evs: seq<Event>)
    ensures Run(s, evs).federatedLearningRounds == s.federatedLearningRounds + RoundEvents(evs)
    decreases |evs|
  {
    if evs != [] {
      RoundsCountRoundEvents(Reduce(s, evs[0].action, evs[0].at), evs[1..]);
    }
  }

  /** Once at most 99.9, the global accuracy never decreases and never
      exceeds 99.9, whatever is dispatched. */
  lemma {:induction false} AccuracyMonotoneAndCapped(s: State, evs: seq<Event>)
    requires s.globalAccuracy <= 99.9
    ensures s.globalAccuracy <= Run(s, evs).globalAccuracy <= 99.9
    decreases |evs|
  {
    if evs != [] {
      AccuracyMonotoneAndCapped(Reduce(s, evs[0].action, evs[0].at), evs[1..]);
    }
  }

  /** No dispatch sequence changes the node count, the privacy score or the
      average processing time. */
  lemma {:induction false} RunKeepsShape(s: State, evs: seq<Event>)
    ensures var r := Run(s, evs);
      && |r.edgeNodes| == |s.edgeNodes| && |r.complianceMetrics| == |s.complianceMetrics|
      && r.privacyScore == s.privacyScore && r.averageProcessingTime == s.averageProcessingTime
    decreases |evs|
  {
    if evs != [] {
      RunKeepsShape(Reduce(s, evs[0].action, evs[0].at), evs[1..]);
    }
  }

  /** Every state reachable from the initial snapshot has four nodes, three
      metrics, privacy score 100, average time 8.5, an accuracy between 99.7
      and 99.9, as many rounds as round events, and a defect total equal to
      the sum of all dispatched counts. */
  lemma ReachableInvariants(t: Time, evs: seq<Event>)
    ensures var r := Run(Initial(t), evs);
      && |r.edgeNodes| == 4 && |r.complianceMetrics| == 3
      && r.privacyScore == 100.0 && r.averageProcessingTime == 8.5
      && 99.7 <= r.globalAccuracy <= 99.9
      && r.federatedLearningRounds == RoundEvents(evs)
      && r.totalDefectsDetected == DispatchedDefects(evs)
  {
    RunKeepsShape(Initial(t), evs);
    AccuracyMonotoneAndCapped(Initial(t), evs);
    RoundsCountRoundEvents(Initial(t), evs);
    TotalTracksDispatchedCounts(Initial(t), evs);
  }

  /** A scenario: start, two detections on node-japan-01, one round. */
  lemma StartDetectRoundScenario(t: Time, t1: Time, t2: Time, t3: Time)
    ensures var r := Run(Initial(t), [Event(StartSystem, t1),
                                      Event(AddDefectDetection("node-japan-01", 2), t2),
                                      Event(FederatedLearningRound, t3)]);
      && |r.edgeNodes| == 4
      && r.totalDefectsDetected == 2 && r.edgeNodes[0].defectsDetected == 2
      && r.federatedLearningRounds == 1 && r.globalAccuracy == 99.8
      && forall i :: 0 <= i < |r.edgeNodes| ==> r.edgeNodes[i].status == Active
  {
    var evs := [Event(StartSystem, t1), Event(AddDefectDetection("node-japan-01", 2), t2),
                Event(FederatedLearningRound, t3)];
    var s1 := Reduce(Initial(t), StartSystem, t1);
    var s2 := Reduce(s1, AddDefectDetection("node-japan-01", 2), t2);
    var s3 := Reduce(s2, FederatedLearningRound, t3);
    var e1 := evs[1..];
    var e2 := e1[1..];
    assert e2[1..] == [];
    assert Run(s2, e2) == s3;
    assert Run(s1, e1) == s3;
    assert Run(Initial(t), evs) == s3;
  }

  // ---------------------------------------------------------------------
  // Simulation helpers: they read a snapshot and return what they dispatch

  /** `Math.floor(r * n)`: an index into a list of length `n`. */
  function PickIndex(r: real, n: nat): (k: nat)
    requires IsDraw(r) && n > 0
    ensures k < n
  {
    assert r * n as real < n as real;
    (r * n as real).Floor
  }

  /** `simulateDefectDetection`: `pick` chooses the node, `trigger` decides
      whether it fires and `countDraw` sets the count (the source draws it
      only when it fires). An empty node list makes the source throw (None). */
  function DefectDetectionDispatch(s: State, pick: real, trigger: real, countDraw: real): (r: Option<seq<Action>>)
    requires IsDraw(pick) && IsDraw(trigger) && IsDraw(countDraw)
    ensures r.None? <==> |s.edgeNodes| == 0
    ensures r.Some? ==> |r.value| <= 1
    ensures r.Some? && |r.value| == 1 ==>
      && trigger > 0.7
      && r.value[0].AddDefectDetection?
      && 1 <= r.value[0].count <= 3
      && s.edgeNodes[PickIndex(pick, |s.edgeNodes|)].status == Active
      && r.value[0].nodeId == s.edgeNodes[PickIndex(pick, |s.edgeNodes|)].id
  {
    if |s.edgeNodes| == 0 then None
    else
      var node := s.edgeNodes[PickIndex(pick, |s.edgeNodes|)];
      if node.status == Active && trigger > 0.7 then
        Some([AddDefectDetection(node.id, (countDraw * 3.0).Floor + 1)])
      else Some([])
  }

  /** Conversely: an active node chosen by `pick` with `trigger > 0.7`
      always produces one dispatch. */
  lemma DefectDetectionFires(s: State, pick: real, trigger: real, countDraw: real)
    requires IsDraw(pick) && IsDraw(trigger) && IsDraw(countDraw) && |s.edgeNodes| > 0
    requires s.edgeNodes[PickIndex(pick, |s.edgeNodes|)].status == Active && trigger > 0.7
    ensures var r := DefectDetectionDispatch(s, pick, trigger, countDraw);
      r.Some? && |r.value| == 1 && r.value[0].nodeId == s.edgeNodes[PickIndex(pick, |s.edgeNodes|)].id
  {
  }

  /** The metric drift for one active node (`pt` and `ac` are the draws):
      an update of that node only, touching no field but these two. The
      processing time moves less than 1 ms from the node's own value and is
      floored at 5; the accuracy moves less than 0.1 and is clamped to
      [95, 99.9]. Away from the bounds no clamping happens. */
  function MetricUpdate(node: EdgeNode, pt: real, ac: real): (a: Action)
    requires IsDraw(pt) && IsDraw(ac)
    ensures a.UpdateNode? && a.nodeId == node.id
    ensures a.updates == NoUpdates.(processingTime := a.updates.processingTime, accuracy := a.updates.accuracy)
    ensures a.updates.processingTime.Some? && a.updates.processingTime.value >= 5.0
    ensures a.updates.accuracy.Some? && 95.0 <= a.updates.accuracy.value <= 99.9
    ensures var v := a.updates.processingTime.value;
      && (v == 5.0 || node.processingTime - 1.0 <= v < node.processingTime + 1.0)
      && (node.processingTime >= 6.0 ==> node.processingTime - 1.0 <= v < node.processingTime + 1.0)
    ensures var w := a.updates.accuracy.value;
      && (w == 95.0 || w == 99.9 || node.accuracy - 0.1 <= w < node.accuracy + 0.1)
      && (95.1 <= node.accuracy <= 99.8 ==> node.accuracy - 0.1 <= w < node.accuracy + 0.1)
  {
    UpdateNode(node.id, NoUpdates.(
      processingTime := Some(Max(5.0, node.processingTime + (pt - 0.5) * 2.0)),
      accuracy := Some(Min(99.9, Max(95.0, node.accuracy + (ac - 0.5) * 0.2)))))
  }

  /** What `updateNodeMetrics` dispatches: one update per active node, in
      list order. Node `i` uses the draws `ptDraws[i]`, `accDraws[i]`. */
  function MetricDispatches(nodes: seq<EdgeNode>, ptDraws: seq<real>, accDraws: seq<real>): (acts: seq<Action>)
    requires |ptDraws| == |nodes| && |accDraws| == |nodes| && AllDraws(ptDraws) && AllDraws(accDraws)
    ensures |acts| == ActiveCount(nodes)
    decreases |nodes|
  {
    if nodes == [] then []
    else
      var n := |nodes| - 1;
      MetricDispatches(nodes[..n], ptDraws[..n], accDraws[..n])
        + (if nodes[n].status == Active then [MetricUpdate(nodes[n], ptDraws[n], accDraws[n])] else [])
  }

  /** `filter(n => n.status === 'active').length` */
  function ActiveCount(nodes: seq<EdgeNode>): (n: nat)
    ensures n <= |nodes|
    decreases |nodes|
  {
    if nodes == [] then 0
    else ActiveCount(nodes[..|nodes| - 1]) + (if nodes[|nodes| - 1].status == Active then 1 else 0)
  }

  /** The count is positive exactly when some node is active. */
  lemma {:induction false} ActiveCountPositive(nodes: seq<EdgeNode>)
    ensures ActiveCount(nodes) > 0 <==> exists i :: 0 <= i < |nodes| && nodes[i].status == Active
    decreases |nodes|
  {
    if nodes != [] {
      var m := |nodes| - 1;
      ActiveCountPositive(nodes[..m]);
      if ActiveCount(nodes[..m]) > 0 {
        var i :| 0 <= i < m && nodes[..m][i].status == Active;
        assert nodes[i] == nodes[..m][i];
      }
    }
  }

  /** `a` is the drift of some active node, with that node's own draws. */
  predicate DriftOfActive(nodes: seq<EdgeNode>, ptDraws: seq<real>, accDraws: seq<real>, a: Action)
    requires |ptDraws| == |nodes| && |accDraws| == |nodes| && AllDraws(ptDraws) && AllDraws(accDraws)
  {
    exists i :: 0 <= i < |nodes| && nodes[i].status == Active && a == MetricUpdate(nodes[i], ptDraws[i], accDraws[i])
  }

  /** The k-th metric update is the drift of the k-th active node, with that
      node's own draws. */
  lemma {:induction false} MetricDispatchesFrom(nodes: seq<EdgeNode>, ptDraws: seq<real>, accDraws: seq<real>)
    requires |ptDraws| == |nodes| && |accDraws| == |nodes| && AllDraws(ptDraws) && AllDraws(accDraws)
    ensures |MetricDispatches(nodes, ptDraws, accDraws)| == |ActiveIds(nodes)|
    ensures forall k :: 0 <= k < |MetricDispatches(nodes, ptDraws, accDraws)| ==>
      && DriftOfActive(nodes, ptDraws, accDraws, MetricDispatches(nodes, ptDraws, accDraws)[k])
      && MetricDispatches(nodes, ptDraws, accDraws)[k].UpdateNode?
      && MetricDispatches(nodes, ptDraws, accDraws)[k].nodeId == ActiveIds(nodes)[k]
    decreases |nodes|
  {
    if nodes != [] {
      var n := |nodes| - 1;
      MetricDispatchesFrom(nodes[..n], ptDraws[..n], accDraws[..n]);
      var acts := MetricDispatches(nodes, ptDraws, accDraws);
      var pre := MetricDispatches(nodes[..n], ptDraws[..n], accDraws[..n]);
      assert acts == pre + (if nodes[n].status == Active then [MetricUpdate(nodes[n], ptDraws[n], accDraws[n])] else []);
      assert ActiveIds(nodes) == ActiveIds(nodes[..n]) + (if nodes[n].status == Active then [nodes[n].id] else []);
      forall k | 0 <= k < |acts|
        ensures DriftOfActive(nodes, ptDraws, accDraws, acts[k])
        ensures acts[k].UpdateNode? && acts[k].nodeId == ActiveIds(nodes)[k]
      {
        if k < |pre| {
          assert acts[k] == pre[k] && DriftOfActive(nodes[..n], ptDraws[..n], accDraws[..n], pre[k]);
          var i :| 0 <= i < n && nodes[..n][i].status == Active
                   && pre[k] == MetricUpdate(nodes[..n][i], ptDraws[..n][i], accDraws[..n][i]);
          assert nodes[i] == nodes[..n][i] && ptDraws[i] == ptDraws[..n][i] && accDraws[i] == accDraws[..n][i];
        } else {
          assert acts[k] == MetricUpdate(nodes[n], ptDraws[n], accDraws[n]);
        }
      }
    }
  }

  /** Every metric update is the drift of an active node with that node's own
      draws, floors the processing time at 5 and clamps the accuracy to
      [95, 99.9]; the k-th update names the k-th active node, so there is one
      per active node, in list order. */
  lemma MetricDispatchesBounds(nodes: seq<EdgeNode>, ptDraws: seq<real>, accDraws: seq<real>)
    requires |ptDraws| == |nodes| && |accDraws| == |nodes| && AllDraws(ptDraws) && AllDraws(accDraws)
    ensures var acts := MetricDispatches(nodes, ptDraws, accDraws);
      && |acts| == ActiveCount(nodes)
      && forall k :: 0 <= k < |acts| ==>
           && acts[k].UpdateNode?
           && (exists i :: 0 <= i < |nodes| && nodes[i].status == Active && nodes[i].id == acts[k].nodeId
                           && acts[k] == MetricUpdate(nodes[i], ptDraws[i], accDraws[i]))
           && acts[k].updates.processingTime.Some? && acts[k].updates.processingTime.value >= 5.0
           && acts[k].updates.accuracy.Some? && 95.0 <= acts[k].updates.accuracy.value <= 99.9
           && acts[k].updates.status.None? && acts[k].updates.id.None?
           && acts[k].nodeId == ActiveIds(nodes)[k]
  {
    MetricDispatchesFrom(nodes, ptDraws, accDraws);
    var acts := MetricDispatches(nodes, ptDraws, accDraws);
    forall k | 0 <= k < |acts|
      ensures exists i :: 0 <= i < |nodes| && nodes[i].status == Active && nodes[i].id == acts[k].nodeId
                          && acts[k] == MetricUpdate(nodes[i], ptDraws[i], accDraws[i])
      ensures acts[k].updates.processingTime.Some? && acts[k].updates.processingTime.value >= 5.0
      ensures acts[k].updates.accuracy.Some? && 95.0 <= acts[k].updates.accuracy.value <= 99.9
      ensures acts[k].updates.status.None? && acts[k].updates.id.None?
    {
      assert DriftOfActive(nodes, ptDraws, accDraws, acts[k]);
      var i :| 0 <= i < |nodes| && nodes[i].status == Active
               && acts[k] == MetricUpdate(nodes[i], ptDraws[i], accDraws[i]);
    }
  }

  /** `updateNodeMetrics`: walks the snapshot's nodes and collects the
      dispatches in order. */
  method UpdateNodeMetrics(nodes: seq<EdgeNode>, ptDraws: seq<real>, accDraws: seq<real>) returns (acts: seq<Action>)
    requires |ptDraws| == |nodes| && |accDraws| == |nodes| && AllDraws(ptDraws) && AllDraws(accDraws)
    ensures acts == MetricDispatches(nodes, ptDraws, accDraws)
    ensures |acts| == ActiveCount(nodes)
  {
    acts := [];
    var i := 0;
    while i < |nodes|
      invariant 0 <= i <= |nodes|
      invariant acts == MetricDispatches(nodes[..i], ptDraws[..i], accDraws[..i])
    {
      assert nodes[..i + 1][..i] == nodes[..i];
      assert ptDraws[..i + 1][..i] == ptDraws[..i];
      assert accDraws[..i + 1][..i] == accDraws[..i];
      if nodes[i].status == Active {
        acts := acts + [MetricUpdate(nodes[i], ptDraws[i], accDraws[i])];
      }
      i := i + 1;
    }
    assert nodes[..i] == nodes && ptDraws[..i] == ptDraws && accDraws[..i] == accDraws;
    MetricDispatchesBounds(nodes, ptDraws, accDraws);
  }

  /** The update `{ status: st }`. */
  function StatusUpdate(st: NodeStatus): NodeUpdates
  {
    NoUpdates.(status := Some(st))
  }

  /** The ids of the active nodes, in list order. */
  function ActiveIds(nodes: seq<EdgeNode>): (ids: seq<string>)
    ensures |ids| == ActiveCount(nodes)
    ensures forall i :: 0 <= i < |nodes| && nodes[i].status == Active ==> nodes[i].id in ids
    decreases |nodes|
  {
    if nodes == [] then []
    else
      var n := |nodes| - 1;
      var pre := ActiveIds(nodes[..n]);
      assert forall i :: 0 <= i < n ==> nodes[..n][i] == nodes[i];
      pre + (if nodes[n].status == Active then [nodes[n].id] else [])
  }

  /** Every listed id belongs to an active node. */
  lemma {:induction false} ActiveIdIsActive(nodes: seq<EdgeNode>, k: nat)
    requires k < |ActiveIds(nodes)|
    ensures exists i :: 0 <= i < |nodes| && nodes[i].status == Active && nodes[i].id == ActiveIds(nodes)[k]
    decreases |nodes|
  {
    var n := |nodes| - 1;
    var pre := ActiveIds(nodes[..n]);
    assert ActiveIds(nodes) == pre + (if nodes[n].status == Active then [nodes[n].id] else []);
    if k < |pre| {
      ActiveIdIsActive(nodes[..n], k);
      var i :| 0 <= i < n && nodes[..n][i].status == Active && nodes[..n][i].id == pre[k];
      assert nodes[i] == nodes[..n][i];
    } else {
      assert nodes[n].status == Active && nodes[n].id == ActiveIds(nodes)[k];
    }
  }

  /** The positions of the active nodes, in increasing order. */
  function ActiveIndices(nodes: seq<EdgeNode>): (ix: seq<nat>)
    ensures |ix| == ActiveCount(nodes)
    ensures forall k :: 0 <= k < |ix| ==> ix[k] < |nodes| && nodes[ix[k]].status == Active
    ensures forall k, j :: 0 <= k < j < |ix| ==> ix[k] < ix[j]
    decreases |nodes|
  {
    if nodes == [] then []
    else
      var n := |nodes| - 1;
      var pre := ActiveIndices(nodes[..n]);
      assert forall k :: 0 <= k < |pre| ==> nodes[pre[k]] == nodes[..n][pre[k]];
      pre + (if nodes[n].status == Active then [n] else [])
  }

  /** The listed ids follow the list order of the active nodes: the k-th id
      is the id of the k-th active node. */
  lemma {:induction false} ActiveIdsInOrder(nodes: seq<EdgeNode>)
    ensures |ActiveIds(nodes)| == |ActiveIndices(nodes)|
    ensures forall k :: 0 <= k < |ActiveIds(nodes)| ==> ActiveIds(nodes)[k] == nodes[ActiveIndices(nodes)[k]].id
    decreases |nodes|
  {
    if nodes != [] {
      var n := |nodes| - 1;
      ActiveIdsInOrder(nodes[..n]);
      var pre := ActiveIndices(nodes[..n]);
      var ix, ids := ActiveIndices(nodes), ActiveIds(nodes);
      assert ix == pre + (if nodes[n].status == Active then [n] else []);
      assert ids == ActiveIds(nodes[..n]) + (if nodes[n].status == Active then [nodes[n].id] else []);
      forall k | 0 <= k < |ids| ensures ids[k] == nodes[ix[k]].id {
        if k < |pre| {
          assert ix[k] == pre[k] && ids[k] == ActiveIds(nodes[..n])[k];
          assert nodes[pre[k]] == nodes[..n][pre[k]];
        }
      }
    }
  }

  /** One `{ status: st }` update per listed id, in order. */
  function StatusActs(ids: seq<string>, st: NodeStatus): (acts: seq<Action>)
    ensures |acts| == |ids|
    ensures forall k :: 0 <= k < |ids| ==> acts[k] == UpdateNode(ids[k], StatusUpdate(st))
  {
    seq(|ids|, k requires 0 <= k < |ids| => UpdateNode(ids[k], StatusUpdate(st)))
  }

  /** `simulateFederatedLearning` (its immediate part): one round, then a
      `status: 'learning'` update per node active in the snapshot. */
  method SimulateFederatedLearning(nodes: seq<EdgeNode>) returns (acts: seq<Action>)
    ensures acts == [FederatedLearningRound] + StatusActs(ActiveIds(nodes), Learning)
    ensures |acts| == 1 + ActiveCount(nodes)
  {
    acts := [FederatedLearningRound];
    var i := 0;
    while i < |nodes|
      invariant 0 <= i <= |nodes|
      invariant acts == [FederatedLearningRound] + StatusActs(ActiveIds(nodes[..i]), Learning)
    {
      assert nodes[..i + 1][..i] == nodes[..i];
      if nodes[i].status == Active {
        acts := acts + [UpdateNode(nodes[i].id, StatusUpdate(Learning))];
      }
      i := i + 1;
    }
    assert nodes[..i] == nodes;
  }

  /** Events that reduce every action at the same instant. */
  function At(acts: seq<Action>, now: Time): (evs: seq<Event>)
    ensures |evs| == |acts| && forall k :: 0 <= k < |acts| ==> evs[k] == Event(acts[k], now)
  {
    seq(|acts|, k requires 0 <= k < |acts| => Event(acts[k], now))
  }

  /** Setting `status: st` on each listed id, in turn, marks exactly the
      nodes whose id is listed. */
  lemma {:induction false} StatusUpdatesMark(s: State, ids: seq<string>, st: NodeStatus, now: Time)
    ensures var r := Run(s, At(StatusActs(ids, st), now));
      && r == s.(edgeNodes := r.edgeNodes)
      && |r.edgeNodes| == |s.edgeNodes|
      && forall i :: 0 <= i < |s.edgeNodes| ==>
           r.edgeNodes[i] == if s.edgeNodes[i].id in ids
                             then s.edgeNodes[i].(status := st, lastUpdate := now)
                             else s.edgeNodes[i]
    decreases |ids|
  {
    var evs := At(StatusActs(ids, st), now);
    if ids != [] {
      var s1 := Reduce(s, UpdateNode(ids[0], StatusUpdate(st)), now);
      assert s1.edgeNodes == UpdateNodes(s.edgeNodes, ids[0], StatusUpdate(st), now);
      assert forall i :: 0 <= i < |s.edgeNodes| ==> s1.edgeNodes[i].id == s.edgeNodes[i].id;
      assert evs[0] == Event(UpdateNode(ids[0], StatusUpdate(st)), now);
      assert evs[1..] == At(StatusActs(ids[1..], st), now);
      assert Run(s, evs) == Run(s1, evs[1..]);
      StatusUpdatesMark(s1, ids[1..], st, now);
      forall i | 0 <= i < |ids| ensures ids[i] == ids[0] || ids[i] in ids[1..] {
        if i > 0 { assert ids[i] == ids[1..][i - 1]; }
      }
    } else {
      assert evs == [];
    }
  }

  /** The active ids of a list with unique ids are exactly the ids of its
      active nodes. */
  lemma ActiveIdsExact(nodes: seq<EdgeNode>, i: nat)
    requires UniqueIds(nodes) && i < |nodes|
    ensures nodes[i].id in ActiveIds(nodes) <==> nodes[i].status == Active
  {
    if nodes[i].id in ActiveIds(nodes) {
      var ids := ActiveIds(nodes);
      var k :| 0 <= k < |ids| && ids[k] == nodes[i].id;
      ActiveIdIsActive(nodes, k);
      var j :| 0 <= j < |nodes| && nodes[j].status == Active && nodes[j].id == ids[k];
      assert j == i;
    }
  }

  /** Dispatching what `simulateFederatedLearning` returns against the same
      snapshot counts one round and turns exactly the active nodes into
      learning nodes (node ids being unique). */
  lemma SimulateFederatedLearningEffect(s: State, now: Time)
    requires UniqueIds(s.edgeNodes)
    ensures var r := Run(s, At([FederatedLearningRound] + StatusActs(ActiveIds(s.edgeNodes), Learning), now));
      && r.federatedLearningRounds == s.federatedLearningRounds + 1
      && |r.edgeNodes| == |s.edgeNodes|
      && forall i :: 0 <= i < |s.edgeNodes| ==>
           r.edgeNodes[i] == if s.edgeNodes[i].status == Active
                             then s.edgeNodes[i].(status := Learning, lastUpdate := now)
                             else s.edgeNodes[i]
  {
    var ids := ActiveIds(s.edgeNodes);
    var evs := At([FederatedLearningRound] + StatusActs(ids, Learning), now);
    var s1 := Reduce(s, FederatedLearningRound, now);
    assert evs[0] == Event(FederatedLearningRound, now);
    assert evs[1..] == At(StatusActs(ids, Learning), now);
    assert Run(s, evs) == Run(s1, evs[1..]);
    StatusUpdatesMark(s1, ids, Learning, now);
    forall i | 0 <= i < |s.edgeNodes| ensures (s.edgeNodes[i].id in ids) <==> s.edgeNodes[i].status == Active {
      ActiveIdsExact(s.edgeNodes, i);
    }
  }

  /** The timers of `simulateFederatedLearning` later dispatch, for every
      node that was active in the snapshot, `{ status: 'active' }`. Run right
      after the learning updates (nothing in between), they return those
      nodes to active, stamped `later`; no other node changes. */
  lemma LearningThenRestore(s: State, now: Time, later: Time)
    requires UniqueIds(s.edgeNodes)
    ensures var ids := ActiveIds(s.edgeNodes);
      var r := Run(Run(s, At(StatusActs(ids, Learning), now)), At(StatusActs(ids, Active), later));
      && r == s.(edgeNodes := r.edgeNodes)
      && |r.edgeNodes| == |s.edgeNodes|
      && forall i :: 0 <= i < |s.edgeNodes| ==>
           r.edgeNodes[i] == if s.edgeNodes[i].status == Active
                             then s.edgeNodes[i].(lastUpdate := later)
                             else s.edgeNodes[i]
  {
    var ids := ActiveIds(s.edgeNodes);
    var s1 := Run(s, At(StatusActs(ids, Learning), now));
    StatusUpdatesMark(s, ids, Learning, now);
    assert forall i :: 0 <= i < |s.edgeNodes| ==> s1.edgeNodes[i].id == s.edgeNodes[i].id;
    StatusUpdatesMark(s1, ids, Active, later);
    forall i | 0 <= i < |s.edgeNodes| ensures (s.edgeNodes[i].id in ids) <==> s.edgeNodes[i].status == Active {
      ActiveIdsExact(s.edgeNodes, i);
    }
  }
}
