# NEMI core in Dafny

NEMI is a browser dashboard that simulates AI-based quality inspection
across Japanese and Indian factories. Its logic lives in one shared store
and in four views that read and feed it. This project models:

- **The store** (`nemi_store.dfy`, module `NemiStore`). It covers:
  - the state record;
  - the nine reducer actions;
  - the initial snapshot;
  - the three simulation helpers that read a snapshot and decide what to
    dispatch: defect detection, node-metric drift and a federated-learning
    round.

  The reducer is a pure function `Reduce(s, a, now)`. `Run` folds a sequence
  of dispatched events through it, so invariants over any dispatch history
  are lemmas about `Run`.
- **The federated-learning view** (`federated_learning.dfy`). It covers:
  - the seeded network and its 20-round history;
  - one learning round as a `FederatedView` class method: the no-op while
    learning, participant selection, the training status, the transmission
    animation, aggregation, the 20-round window behind the privacy-budget
    floor, and the final request to the store.
- **The edge-processing view** (`edge_processing.dfy`). The per-frame step
  is an `EdgeView` class method:
  - at most one simulated detection per frame;
  - the newest-first list of at most ten;
  - frame and detection counters;
  - the report to the store under `'edge-demo-node'`.
- **The micro-defect view** (`micro_defect_detection.dfy`). It covers:
  - the batch of eight generated defects;
  - the progressive prefix reveal while the progress runs 0, 2, …, 100;
  - the average-size metric.
- **The dashboard** (`dashboard.dfy`). It covers:
  - the 24-point performance chart and its two-second sliding tick;
  - the active-node counts shown in the status banner and the
    federated-learning card.

Conventions used throughout:
- Every `Math.random()` draw is an explicit real parameter in [0, 1).
- Every `new Date()` or `Date.now()` is an integer `now` in milliseconds.
- Accuracies and times are exact reals.
- Awaited pauses are flattened: the steps that follow a pause run directly
  after the steps before it.

Two behaviours of the code are worth stating up front:
- **The defect total is not the sum of the node counters.**
  ADD_DEFECT_DETECTION adds `count` to the total whatever the id, and only a
  node carrying that id moves its own counter
  (src/context/NEMIContext.tsx:170-179). The edge view reports under
  `'edge-demo-node'` (src/components/edge/EdgeProcessing.tsx:149-157), which
  is no node of the store, so the two drift apart.
  - `EdgeDemoNodeDivergence` and `DemoNodeReportOnlyMovesTotal` prove this
    drift.
  - `TotalTracksDispatchedCounts` proves what holds instead: the total is
    the sum of all dispatched counts.
- **A temporal key can be any string.** `NEMIState` declares five temporal
  keys (src/context/NEMIContext.tsx:33-39), but the `scale` of
  UPDATE_TEMPORAL_DATA is any string (src/context/NEMIContext.tsx:53,
  209-216). `UpdateTemporalDataEffect` states that any key is set.

## Model

| member | source | states |
|---|---|---|
| NemiStore.InitialNodes | src/context/NEMIContext.tsx:57-94 | four seed nodes, all inactive, every defect counter 0 |
| NemiStore.Initial | src/context/NEMIContext.tsx:55-135 | the initial snapshot: inactive, accuracy 99.7, no defects or rounds, privacy 100, mean time 8.5, three metrics, exactly the five temporal keys |
| NemiStore.InitialUniqueIds | src/context/NEMIContext.tsx:57-94 | the four seed nodes carry different ids |
| NemiStore.Reduce | src/context/NEMIContext.tsx:137-221 | every action keeps the node and metric list lengths, never changes privacy score or mean processing time, never lowers the round count, and never lowers accuracy except to set it to 99.9 |
| NemiStore.Merge | src/context/NEMIContext.tsx:165 | the stamp is always now; an empty update only re-stamps; an absent id or status is kept, a supplied status wins |
| NemiStore.MergeTwice | src/context/NEMIContext.tsx:165 | merging the same update twice equals merging it once at the later stamp |
| NemiStore.Run | src/context/NEMIContext.tsx:235 | no events leave the state as it is; one event is one reducer step |
| NemiStore.RunConcat | src/context/NEMIContext.tsx:235 | dispatching one history after another equals running them in turn |
| NemiStore.AddDefectDetectionEffect | src/context/NEMIContext.tsx:170-179 | the total grows by `count` whatever the id; exactly the nodes with that id gain `count`; nothing else changes |
| NemiStore.AddDefectsNodeSum | src/context/NEMIContext.tsx:170-179 | the node counters together grow by `count` times the number of nodes with that id |
| NemiStore.AddDefectKnownUniqueId | src/context/NEMIContext.tsx:170-179 | for a unique known id the total and the node-counter sum move by the same amount |
| NemiStore.AddDefectUnknownId | src/context/NEMIContext.tsx:170-179 | for an id no node has, the node list is unchanged and only the total moves |
| NemiStore.EdgeDemoNodeDivergence | src/context/NEMIContext.tsx:170-179 | from the initial state a report of 2 under 'edge-demo-node' gives total 2 while the node counters sum to 0 |
| NemiStore.UpdateNodeEffect | src/context/NEMIContext.tsx:160-168 | an unknown id leaves the list unchanged; a matching node takes exactly the supplied fields and `lastUpdate = now` overrides any supplied stamp; other nodes and state are unchanged |
| NemiStore.EmptyUpdateOnlyStamps | src/context/NEMIContext.tsx:160-168 | an update with no fields only re-stamps the matching nodes |
| NemiStore.StartSystemEffect | src/context/NEMIContext.tsx:139-148 | the system and every node become active, each node stamped `now`, nothing else changes |
| NemiStore.StopSystemEffect | src/context/NEMIContext.tsx:150-158 | the system and every node become inactive, `lastUpdate` is kept, nothing else changes |
| NemiStore.StopSystemIdempotent | src/context/NEMIContext.tsx:150-158 | stopping twice equals stopping once |
| NemiStore.StopSystemFromInitial | src/context/NEMIContext.tsx:150-158 | stopping the initial snapshot is the identity |
| NemiStore.StartThenStop | src/context/NEMIContext.tsx:139-158 | start then stop leaves every node inactive with the start stamp and all other fields intact |
| NemiStore.StartThenStopFromInitial | src/context/NEMIContext.tsx:139-158 | start then stop on the initial snapshot gives it back with re-stamped nodes |
| NemiStore.FederatedLearningRoundEffect | src/context/NEMIContext.tsx:202-207 | one more round; accuracy becomes min(99.9, acc + 0.1); nothing else changes |
| NemiStore.UpdateComplianceMetricEffect | src/context/NEMIContext.tsx:181-187 | every metric with the payload id is replaced wholesale, the length is kept, an unknown id is a no-op |
| NemiStore.ModelActionsEffect | src/context/NEMIContext.tsx:189-200 | SET_MODEL stores the handle and clears loading; SET_MODEL_LOADING changes only the flag |
| NemiStore.UpdateTemporalDataEffect | src/context/NEMIContext.tsx:209-216 | any string key is set; all other keys and fields are kept |
| NemiStore.TotalTracksDispatchedCounts | src/context/NEMIContext.tsx:170-179 | over any dispatch history the total equals its start value plus every dispatched count |
| NemiStore.RoundsCountRoundEvents | src/context/NEMIContext.tsx:202-207 | over any history the round counter grows by exactly the number of round actions |
| NemiStore.AccuracyMonotoneAndCapped | src/context/NEMIContext.tsx:137-221 | starting at most 99.9, accuracy never decreases and never exceeds 99.9 |
| NemiStore.RunKeepsShape | src/context/NEMIContext.tsx:137-221 | no history changes the list lengths, the privacy score or the mean processing time |
| NemiStore.ReachableInvariants | src/context/NEMIContext.tsx:55-221 | every reachable state has four nodes, three metrics, privacy 100, mean 8.5, accuracy in [99.7, 99.9], rounds equal to round actions, total equal to dispatched counts |
| NemiStore.StartDetectRoundScenario | src/context/NEMIContext.tsx:137-207 | start, two detections on node-japan-01, one round: total 2, that node's counter 2, one round, accuracy 99.8, all nodes active |
| NemiStore.DefectDetectionDispatch | src/context/NEMIContext.tsx:290-298 | no nodes is the error case; otherwise at most one dispatch, only when the node chosen by the pick draw is active and the trigger draw is above 0.7, naming that node, with count in 1..3 |
| NemiStore.DefectDetectionFires | src/context/NEMIContext.tsx:290-298 | conversely an active chosen node with a draw above 0.7 always dispatches, naming that node |
| NemiStore.MetricUpdate | src/context/NEMIContext.tsx:330-346 | an update of that node only, touching only processing time and accuracy: processing time within 1 ms of the node's own value or floored at 5, accuracy within 0.1 of the node's own value or clamped to 95 or 99.9, and unclamped away from those bounds |
| NemiStore.MetricDispatches | src/context/NEMIContext.tsx:330-346 | as many updates as active nodes |
| NemiStore.MetricDispatchesBounds | src/context/NEMIContext.tsx:329-347 | each update is the drift of an active node with that node's own draws; the k-th update names the k-th active node, so one update per active node in list order; processing time at least 5, accuracy in [95, 99.9], status and id untouched |
| NemiStore.MetricDispatchesFrom | src/context/NEMIContext.tsx:329-347 | the k-th update is the drift of an active node and names the k-th active id |
| NemiStore.UpdateNodeMetrics | src/context/NEMIContext.tsx:329-347 | the loop dispatches exactly the per-active-node updates, in list order |
| NemiStore.ActiveIds | src/context/NEMIContext.tsx:303-305 | one id per active node; every active node's id is listed |
| NemiStore.ActiveCount | src/components/dashboard/Dashboard.tsx:165 | the count never exceeds the number of nodes |
| NemiStore.ActiveCountPositive | src/components/dashboard/Dashboard.tsx:165 | the count is positive exactly when some node is active |
| NemiStore.ActiveIdIsActive | src/context/NEMIContext.tsx:303-305 | every listed id belongs to an active node |
| NemiStore.ActiveIndices | src/context/NEMIContext.tsx:303-305 | the positions of the active nodes, one per active node, strictly increasing |
| NemiStore.ActiveIdsInOrder | src/context/NEMIContext.tsx:303-305 | the k-th listed id is the id of the k-th active node, so ids follow list order |
| NemiStore.ActiveIdsExact | src/context/NEMIContext.tsx:303-305 | with unique ids, a node's id is listed exactly when it is active |
| NemiStore.SimulateFederatedLearning | src/context/NEMIContext.tsx:300-314 | one round action, then one `learning` update per node active in the snapshot, in order |
| NemiStore.StatusUpdatesMark | src/context/NEMIContext.tsx:160-168 | a sequence of status updates marks and stamps exactly the nodes whose ids are listed, and changes nothing else |
| NemiStore.SimulateFederatedLearningEffect | src/context/NEMIContext.tsx:300-314 | dispatching those actions counts one round and turns exactly the active nodes into learning nodes |
| NemiStore.LearningThenRestore | src/context/NEMIContext.tsx:300-324 | the later `active` updates undo the learning status: formerly active nodes are active again, stamped at restore time; others unchanged |
| FederatedLearning.InitialNetwork | src/components/federated/FederatedLearning.tsx:41-115 | seven nodes with unique ids, the coordinator first and only there |
| FederatedLearning.HistoryEntry | src/components/federated/FederatedLearning.tsx:122-129 | round i, accuracy 95 + 0.2 i plus up to 0.1, 4 to 6 participants, convergence in [0.8, 1), budget 1 - 0.02 i, stamped 20 - i hours before mount |
| FederatedLearning.InitialHistory | src/components/federated/FederatedLearning.tsx:119-132 | rounds 1..20 oldest first, budget 1 - 0.02 i, 4 to 6 participants, convergence in [0.8, 1), one hour apart |
| FederatedLearning.Participants | src/components/federated/FederatedLearning.tsx:143 | participants are in the list, never the coordinator, each with a draw above 0.3, and every such node is included; with unique ids no node is listed twice, so the count is the number of qualifying nodes |
| FederatedLearning.ParticipatesExactly | src/components/federated/FederatedLearning.tsx:143-148 | with unique ids, a node participates iff it is not the coordinator and its draw exceeds 0.3 |
| FederatedLearning.SelectPhase | src/components/federated/FederatedLearning.tsx:144-148 | same length, each node changed in its status only |
| FederatedLearning.SelectPhaseStatuses | src/components/federated/FederatedLearning.tsx:143-148 | coordinator active, participants learning, the rest idle |
| FederatedLearning.AggregateAt | src/components/federated/FederatedLearning.tsx:184-192 | for any participant list: every node active and stamped, ids and kinds kept, exactly the listed factories gain one contribution, coordinator takes the new accuracy, factories drift up by 0.02 to 0.05 capped at 99.9 |
| FederatedLearning.NewAccuracy | src/components/federated/FederatedLearning.tsx:171 | at most 99.9, and otherwise 0.05 to 0.1 above the global accuracy |
| FederatedLearning.AggregatePhase | src/components/federated/FederatedLearning.tsx:184-192 | same length, every id and kind kept |
| FederatedLearning.AggregatePhaseEffect | src/components/federated/FederatedLearning.tsx:184-192 | every node active and stamped; exactly the participants gain one contribution; coordinator takes the new accuracy; factories drift up by 0.02 to 0.05, capped at 99.9 |
| FederatedLearning.RoundKeepsIds | src/components/federated/FederatedLearning.tsx:144-148 | selection then aggregation keeps every id, so unique ids stay unique |
| FederatedLearning.NewRound | src/components/federated/FederatedLearning.tsx:172-179 | round = currentRound + 1 from the pre-increment value, the new accuracy, the participant count, budget 1 - 0.02 currentRound when that is at least 0.1 and 0.1 otherwise, convergence in [0.85, 0.95), stamped now |
| FederatedLearning.KeepLast | src/components/federated/FederatedLearning.tsx:181 | the last n entries, or all of them |
| FederatedLearning.NextHistory | src/components/federated/FederatedLearning.tsx:181 | at most 20 entries, ends with the new round, earlier entries are the newest of the old ones in order |
| FederatedLearning.NextHistoryKeepsBudgetFloor | src/components/federated/FederatedLearning.tsx:177-181 | the window keeps every budget at least 0.1 |
| FederatedLearning.RoundKeepsWellFormed | src/components/federated/FederatedLearning.tsx:143-192 | a round keeps the window at most 20 long, every budget at least 0.1 and node ids unique |
| FederatedLearning.TransmissionsFor | src/components/federated/FederatedLearning.tsx:154-159 | one transmission per participant towards the coordinator, at 0% |
| FederatedLearning.WithProgress | src/components/federated/FederatedLearning.tsx:163 | same transmissions with the given progress |
| FederatedLearning.AnimateTransmissions | src/components/federated/FederatedLearning.tsx:162-165 | eleven frames at 0, 10, ..., 100% covering every transmission |
| FederatedLearning.FederatedView.constructor | src/components/federated/FederatedLearning.tsx:29-133 | the mounted view: seeded network and history, round 20, not learning |
| FederatedLearning.FederatedView.Transmit | src/components/federated/FederatedLearning.tsx:153-165 | the displayed transmissions end as one per participant at 100% |
| FederatedLearning.FederatedView.StartLearningRound | src/components/federated/FederatedLearning.tsx:136-199 | no-op while learning; otherwise the round counter +1, nodes after selection and aggregation, the new history window, transmissions cleared, not learning, store notified; keeps window <= 20, budgets >= 0.1, unique ids |
| EdgeProcessing.NewDetections | src/components/edge/EdgeProcessing.tsx:91-106 | at most one detection, present iff the draw exceeds 0.8, confidence in [0.7, 1), box 50 to 150 wide and high, origin inside the canvas less 100 |
| EdgeProcessing.KindOf | src/components/edge/EdgeProcessing.tsx:95 | a defect iff the first draw exceeds 0.7, else compliance iff the second exceeds 0.5, else an anomaly |
| EdgeProcessing.NextDetections | src/components/edge/EdgeProcessing.tsx:134 | new detections first, then at most nine earlier ones in order |
| EdgeProcessing.DetectionWindow | src/components/edge/EdgeProcessing.tsx:134 | at most ten entries, at most nine after a frame without detection which drops the oldest of a full list |
| EdgeProcessing.NextStats | src/components/edge/EdgeProcessing.tsx:141-146 | one more frame, detections grow by the frame's count |
| EdgeProcessing.FrameCountMatchesStoreTotal | src/components/edge/EdgeProcessing.tsx:141-157 | what a frame adds to its detection count is exactly what its report adds to the store's defect total |
| EdgeProcessing.StoreReport | src/components/edge/EdgeProcessing.tsx:149-157 | a report iff there are detections, their number under 'edge-demo-node' |
| EdgeProcessing.DemoNodeReportOnlyMovesTotal | src/components/edge/EdgeProcessing.tsx:149-157 | on the initial store that report changes only the aggregate total |
| EdgeProcessing.EdgeView.constructor | src/components/edge/EdgeProcessing.tsx:21-28 | not streaming, no detections, zero stats |
| EdgeProcessing.EdgeView.StartStream | src/components/edge/EdgeProcessing.tsx:31-51 | streaming starts only with camera access and a video element; otherwise nothing changes |
| EdgeProcessing.EdgeView.StopStream | src/components/edge/EdgeProcessing.tsx:54-66 | streaming stops, results are kept |
| EdgeProcessing.EdgeView.ProcessFrame | src/components/edge/EdgeProcessing.tsx:69-161 | no-op without video, canvas, stream, context or video width; otherwise canvas sized to the video, detections, stats and store report as above; list stays <= 10 |
| MicroDefectDetection.DescribeDeterminesType | src/components/micro/MicroDefectDetection.tsx:188-204 | different types give different descriptions |
| MicroDefectDetection.DescribeEmbedsSize | src/components/micro/MicroDefectDetection.tsx:188-204 | a description opens with its type's phrase, followed by the rendered size |
| MicroDefectDetection.DefectId | src/components/micro/MicroDefectDetection.tsx:171-172 | the id ends with the index digit |
| MicroDefectDetection.DefectIdsDistinct | src/components/micro/MicroDefectDetection.tsx:171-172 | ids of one batch are distinct |
| MicroDefectDetection.SeverityOf | src/components/micro/MicroDefectDetection.tsx:181 | high iff the first draw exceeds 0.7, medium iff not and the second exceeds 0.4, low otherwise |
| MicroDefectDetection.DefectAt | src/components/micro/MicroDefectDetection.tsx:171-206 | size in [0.5, 5), confidence in [0.8, 1), position on the surface, severity given by its draws, description of its type embedding its size |
| MicroDefectDetection.GenerateDefects | src/components/micro/MicroDefectDetection.tsx:167-210 | exactly eight defects, the i-th from the i-th draws, distinct ids, sizes and confidences in range |
| MicroDefectDetection.BatchFacts | src/components/micro/MicroDefectDetection.tsx:171-186 | a batch built defect by defect has distinct ids and sizes and confidences in range |
| MicroDefectDetection.RevealCount | src/components/micro/MicroDefectDetection.tsx:227 | for progress in 0..100 the count lies in 0..n |
| MicroDefectDetection.RevealCountExact | src/components/micro/MicroDefectDetection.tsx:227 | floor((i/100) n) equals i n / 100 and lies in 0..n |
| MicroDefectDetection.RevealMonotone | src/components/micro/MicroDefectDetection.tsx:227 | reveal counts never decrease, and at 100 everything is revealed |
| MicroDefectDetection.ScanFrame | src/components/micro/MicroDefectDetection.tsx:226-228 | the shown list is the batch prefix of length i n / 100 |
| MicroDefectDetection.ScanFramesGrow | src/components/micro/MicroDefectDetection.tsx:223-231 | earlier frames are prefixes of later ones; frame 100 is the whole batch |
| MicroDefectDetection.AverageSize | src/components/micro/MicroDefectDetection.tsx:424-425 | 0 for an empty list, otherwise mean times count equals the size sum |
| MicroDefectDetection.SumSizesBounds | src/components/micro/MicroDefectDetection.tsx:424-425 | the size sum lies between count times the lower and upper size bounds |
| MicroDefectDetection.AverageSizeBounds | src/components/micro/MicroDefectDetection.tsx:424-425 | the mean of sizes in [lo, hi) lies in [lo, hi) |
| MicroDefectDetection.MicroView.constructor | src/components/micro/MicroDefectDetection.tsx:159-162 | nothing detected, not scanning, progress 0 |
| MicroDefectDetection.MicroView.StartScanning | src/components/micro/MicroDefectDetection.tsx:213-234 | no-op while scanning; otherwise a fresh batch, the 51 displayed frames are the prefixes at progress 0, 2, ..., 100, and at the end progress 100, the whole batch shown, scanning over |
| Dashboard.PointAt | src/components/dashboard/Dashboard.tsx:25-27 | accuracy in [97, 99.5), processing time in [6, 12), defects 0..4, at the given time |
| Dashboard.GeneratePerformanceData | src/components/dashboard/Dashboard.tsx:18-31 | 24 points, oldest first, one minute apart, newest at now, chronological |
| Dashboard.Slide | src/components/dashboard/Dashboard.tsx:57-65 | drops the first point and appends the new one last |
| Dashboard.SlideKeepsChart | src/components/dashboard/Dashboard.tsx:56-65 | a full chart stays 24 points long and chronological |
| Dashboard.DashboardView.constructor | src/components/dashboard/Dashboard.tsx:49-50 | a generated chart and the clock at mount time |
| Dashboard.DashboardView.Tick | src/components/dashboard/Dashboard.tsx:52-71 | the clock always moves to now; while active the chart slides, otherwise it is unchanged; 24 points, chronological |
| Dashboard.LocationCountsWithinActive | src/components/dashboard/Dashboard.tsx:336-338 | Japan + India + global active counts equal the active count, so Japan + India never exceed it |
| Dashboard.ActiveIn | src/components/dashboard/Dashboard.tsx:337-338 | a location's active count never exceeds the overall active count |
| Dashboard.AllActiveCount | src/components/dashboard/Dashboard.tsx:165 | all nodes active gives count = length |
| Dashboard.NoneActiveCount | src/components/dashboard/Dashboard.tsx:165 | no node active gives count 0 |
| Dashboard.ActiveCountAfterStartStop | src/components/dashboard/Dashboard.tsx:165 | after START_SYSTEM all nodes count as active, after STOP_SYSTEM none |
| Dashboard.StartedInitialCounts | src/components/dashboard/Dashboard.tsx:336-338 | starting the initial store shows 4 active nodes, 2 in Japan, 2 in India |

## Left out

- TensorFlow model construction (src/context/NEMIContext.tsx:238-269) is a foreign library; `aiModel` is an opaque optional handle.
- `startSystem`'s two-second interval is not modelled as producing events. It checks the `isSystemActive` captured at call time, and its cleanup is discarded by the caller.
- Timers, sleeps, `await`s and `requestAnimationFrame` are scheduling, not logic. Their steps run in sequence. The 3-second restore of `simulateFederatedLearning` appears only in `LearningThenRestore`, with nothing dispatched in between.
- Interleaving happens in the browser and is not modelled. A second round or scan could start during an awaited pause, and other actions could be dispatched between timer callbacks.
- FederatedLearning.FederatedView.StartLearningRound: with the pauses flattened, its `isLearning` guard is reached only when the view is already learning on entry.
- Camera and canvas I/O (src/components/edge/EdgeProcessing.tsx:31-66, 78-131) are outside the model. Camera access, the video size and the measured frame timing are parameters.
- A detection's id, which uses `Math.random().toString(36)`, is a parameter.
- Rendering is outside the model:
  - `toFixed`, FPS rounding and `toLocaleTimeString` (the micro view's `toFixed(2)` is the parameter `fixed2`; a chart point keeps its time in milliseconds);
  - the sin/cos node layout of the federated network;
  - 3D scenes, temporal data generators, static views and routing.
- JavaScript numbers are modelled as exact reals. Floating-point rounding (for instance in 0.5 + r * 4.5) is not captured.
- Each draw is a parameter indexed by the item it belongs to; the order of the underlying `Math.random()` calls is not modelled. Draws the source makes only on some branches (the second severity or type draw, the coordinator's selection draw) are supplied but unused.
- Dashboard.DashboardView.Tick: requires the clock not to go backwards between ticks (`currentTime <= now`); the source reads `new Date()` and does not guarantee that, and the chart is only shown to stay chronological under this assumption.
- A JavaScript `Partial` update that carries an explicit `undefined` is not modelled; a field is either supplied or absent.
- MicroDefectDetection.GenerateDefects uses one `Date.now()` stamp and one timestamp for the batch; the source reads the clock once per defect.
