/** The federated-learning view: its local network of factory nodes, the
    rolling history of learning rounds, and one learning round
    (`startLearningRound`) run through its synchronous state steps.

    The view's timed pauses are flattened: the round runs its phases one after
    another. Node coordinates (a fixed circle layout) are not modelled. */
module FederatedLearning {
  import NemiStore

  type Time = NemiStore.Time

  datatype NodeKind = JapanFactory | IndiaFactory | Coordinator
  datatype NetStatus = Active | Learning | Idle

  datatype NetworkNode = NetworkNode(
    id: string,
    kind: NodeKind,
    status: NetStatus,
    accuracy: real,
    contributions: int,
    lastUpdate: Time)

  datatype LearningRound = LearningRound(
    round: int,
    globalAccuracy: real,
    participatingNodes: int,
    convergenceRate: real,
    privacyBudget: real,
    timestamp: Time)

  datatype Transmission = Transmission(from: string, to: string, progress: int)

  /** The three draws behind one seeded history entry. */
  datatype HistoryDraw = HistoryDraw(accuracy: real, nodes: real, convergence: real)

  predicate ValidHistoryDraw(d: HistoryDraw)
  {
    NemiStore.IsDraw(d.accuracy) && NemiStore.IsDraw(d.nodes) && NemiStore.IsDraw(d.convergence)
  }

  predicate UniqueIds(nodes: seq<NetworkNode>)
  {
    forall i, j :: 0 <= i < j < |nodes| ==> nodes[i].id != nodes[j].id
  }

  const HistoryWindow := 20

  /** The coordinator and six factories as the view seeds them at time `t`. */
  function InitialNetwork(t: Time): (r: seq<NetworkNode>)
    ensures |r| == 7 && UniqueIds(r)
    ensures r[0].kind == Coordinator && forall i :: 1 <= i < 7 ==> r[i].kind != Coordinator
  {
    [ NetworkNode("coordinator", Coordinator, Active, 99.0, 0, t),
      NetworkNode("japan-factory-01", JapanFactory, Active, 99.7, 24, t),
      NetworkNode("japan-factory-02", JapanFactory, Active, 99.8, 31, t),
      NetworkNode("japan-factory-03", JapanFactory, Idle, 99.4, 18, t),
      NetworkNode("india-factory-01", IndiaFactory, Active, 99.5, 28, t),
      NetworkNode("india-factory-02", IndiaFactory, Active, 99.6, 22, t),
      NetworkNode("india-factory-03", IndiaFactory, Learning, 99.3, 15, t) ]
  }

  /** Seeded history entry number `i` (1-based), `now` being mount time:
      round `i`, an accuracy 0.2 per round above 95 plus up to 0.1, 4 to 6
      participants, a convergence in [0.8, 1), a budget of 1 - 0.02 i, and a
      stamp 20 - i hours before `now`. */
  function HistoryEntry(i: int, d: HistoryDraw, now: Time): (r: LearningRound)
    requires ValidHistoryDraw(d)
    ensures r.round == i && r.privacyBudget == 1.0 - i as real * 0.02
    ensures 95.0 + i as real * 0.2 <= r.globalAccuracy < 95.0 + i as real * 0.2 + 0.1
    ensures 4 <= r.participatingNodes <= 6 && 0.8 <= r.convergenceRate < 1.0
    ensures r.timestamp == now - (20 - i) * 3600000
  {
    assert d.nodes * 3.0 < 3.0;
    LearningRound(
      i,
      95.0 + i as real * 0.2 + d.accuracy * 0.1,
      4 + (d.nodes * 3.0).Floor,
      0.8 + d.convergence * 0.2,
      1.0 - i as real * 0.02,
      now - (20 - i) * 3600000)
  }

  /** The mount-time history: rounds 1..20, oldest first, one hour apart,
      with a privacy budget falling by 0.02 per round. */
  method InitialHistory(draws: seq<HistoryDraw>, now: Time) returns (h: seq<LearningRound>)
    requires |draws| == HistoryWindow && forall k :: 0 <= k < |draws| ==> ValidHistoryDraw(draws[k])
    ensures |h| == HistoryWindow
    ensures forall k :: 0 <= k < |h| ==> h[k] == HistoryEntry(k + 1, draws[k], now)
    ensures forall k :: 0 <= k < |h| ==>
      && h[k].round == k + 1
      && h[k].privacyBudget == 1.0 - (k + 1) as real * 0.02
      && 0.6 <= h[k].privacyBudget < 1.0
      && 4 <= h[k].participatingNodes <= 6
      && 0.8 <= h[k].convergenceRate < 1.0
      && h[k].timestamp == now - (19 - k) * 3600000
    ensures forall k :: 0 <= k < |h| - 1 ==> h[k].round < h[k + 1].round && h[k].timestamp < h[k + 1].timestamp
  {
    h := [];
    var i := 1;
    while i <= 20
      invariant 1 <= i <= 21 && |h| == i - 1
      invariant forall k :: 0 <= k < |h| ==> h[k] == HistoryEntry(k + 1, draws[k], now)
    {
      h := h + [HistoryEntry(i, draws[i - 1], now)];
      i := i + 1;
    }
  }

  /** The nodes that take part in a round: every non-coordinator whose draw
      exceeds 0.3, kept in list order (`draws[i]` belongs to `nodes[i]`). */
  function Participants(nodes: seq<NetworkNode>, draws: seq<real>): (ps: seq<NetworkNode>)
    requires |draws| == |nodes|
    ensures |ps| <= |nodes|
    ensures forall k :: 0 <= k < |ps| ==>
      ps[k].kind != Coordinator && exists i :: 0 <= i < |nodes| && nodes[i] == ps[k] && draws[i] > 0.3
    ensures forall i :: 0 <= i < |nodes| && nodes[i].kind != Coordinator && draws[i] > 0.3 ==> nodes[i] in ps
    ensures UniqueIds(nodes) ==> UniqueIds(ps)
    decreases |nodes|
  {
    if nodes == [] then []
    else
      var n := |nodes| - 1;
      var pre := Participants(nodes[..n], draws[..n]);
      var last := if nodes[n].kind != Coordinator && draws[n] > 0.3 then [nodes[n]] else [];
      assert forall i :: 0 <= i < n ==> nodes[..n][i] == nodes[i] && draws[..n][i] == draws[i];
      assert UniqueIds(nodes) ==> UniqueIds(pre + last) by {
        if UniqueIds(nodes) {
          assert UniqueIds(nodes[..n]);
          AppendDistinct(nodes[..n], nodes[n], pre);
          assert pre + [] == pre;
        }
      }
      pre + last
  }

  /** Appending a node whose id no earlier node has keeps a list drawn from
      those earlier nodes free of duplicate ids. */
  lemma AppendDistinct(prefix: seq<NetworkNode>, last: NetworkNode, pre: seq<NetworkNode>)
    requires forall i :: 0 <= i < |prefix| ==> prefix[i].id != last.id
    requires UniqueIds(pre)
    requires forall k :: 0 <= k < |pre| ==> exists i :: 0 <= i < |prefix| && prefix[i] == pre[k]
    ensures UniqueIds(pre + [last])
  {
    var r := pre + [last];
    forall k, j | 0 <= k < j < |r| ensures r[k].id != r[j].id {
      if j == |pre| {
        var i :| 0 <= i < |prefix| && prefix[i] == pre[k];
      }
    }
  }

  /** `activeNodes.find(n => n.id === node.id)` is truthy. */
  predicate Participates(ps: seq<NetworkNode>, id: string)
  {
    exists k :: 0 <= k < |ps| && ps[k].id == id
  }

  /** With unique ids, a node participates exactly when it is a
      non-coordinator whose draw exceeds 0.3: the coordinator never does. */
  lemma ParticipatesExactly(nodes: seq<NetworkNode>, draws: seq<real>, i: nat)
    requires |draws| == |nodes| && UniqueIds(nodes) && i < |nodes|
    ensures Participates(Participants(nodes, draws), nodes[i].id)
      <==> nodes[i].kind != Coordinator && draws[i] > 0.3
  {
    var ps := Participants(nodes, draws);
    if Participates(ps, nodes[i].id) {
      var k :| 0 <= k < |ps| && ps[k].id == nodes[i].id;
      var j :| 0 <= j < |nodes| && nodes[j] == ps[k] && draws[j] > 0.3;
      assert j == i;
    }
    if nodes[i].kind != Coordinator && draws[i] > 0.3 {
      var k :| 0 <= k < |ps| && ps[k] == nodes[i];
    }
  }

  /** Phase 1: participants learn, the coordinator stays active, the rest idle. */
  function SelectPhase(nodes: seq<NetworkNode>, ps: seq<NetworkNode>): (r: seq<NetworkNode>)
    ensures |r| == |nodes|
    ensures forall i :: 0 <= i < |nodes| ==> r[i] == nodes[i].(status := r[i].status)
  {
    seq(|nodes|, i requires 0 <= i < |nodes| =>
      nodes[i].(status := if Participates(ps, nodes[i].id) then Learning
                          else if nodes[i].kind == Coordinator then Active else Idle))
  }

  lemma SelectPhaseStatuses(nodes: seq<NetworkNode>, draws: seq<real>)
    requires |draws| == |nodes| && UniqueIds(nodes)
    ensures var r := SelectPhase(nodes, Participants(nodes, draws));
      forall i :: 0 <= i < |nodes| ==>
        r[i].status == if nodes[i].kind == Coordinator then Active
                       else if draws[i] > 0.3 then Learning else Idle
  {
    forall i | 0 <= i < |nodes| {
      ParticipatesExactly(nodes, draws, i);
    }
  }

  /** The coordinator's new accuracy: up by 0.05 to 0.1, capped at 99.9. */
  function NewAccuracy(globalAccuracy: real, r: real): (acc: real)
    requires NemiStore.IsDraw(r)
    ensures acc <= 99.9
    ensures acc == 99.9 || globalAccuracy + 0.05 <= acc < globalAccuracy + 0.1
  {
    NemiStore.Min(99.9, globalAccuracy + 0.05 + r * 0.05)
  }

  /** Phase 4: every node back to active and stamped; the coordinator takes
      the new accuracy, each factory drifts up by 0.02 to 0.05 (capped at
      99.9), and each participating factory counts one more contribution. */
  function AggregatePhase(nodes: seq<NetworkNode>, ps: seq<NetworkNode>, newAccuracy: real,
                          accDraws: seq<real>, now: Time): (r: seq<NetworkNode>)
    requires |accDraws| == |nodes|
    ensures |r| == |nodes| && forall i :: 0 <= i < |nodes| ==> r[i].id == nodes[i].id && r[i].kind == nodes[i].kind
  {
    seq(|nodes|, i requires 0 <= i < |nodes| =>
      nodes[i].(
        status := Active,
        accuracy := if nodes[i].kind == Coordinator then newAccuracy
                    else NemiStore.Min(99.9, nodes[i].accuracy + 0.02 + accDraws[i] * 0.03),
        contributions := if nodes[i].kind != Coordinator && Participates(ps, nodes[i].id)
                         then nodes[i].contributions + 1 else nodes[i].contributions,
        lastUpdate := now))
  }

  /** Node `i` after aggregation, for any participant list. */
  lemma AggregateAt(nodes: seq<NetworkNode>, ps: seq<NetworkNode>, newAccuracy: real,
                    accDraws: seq<real>, now: Time, i: nat)
    requires |accDraws| == |nodes| && NemiStore.AllDraws(accDraws) && i < |nodes|
    ensures var m := AggregatePhase(nodes, ps, newAccuracy, accDraws, now)[i];
      && m.id == nodes[i].id && m.kind == nodes[i].kind
      && m.status == Active && m.lastUpdate == now
      && m.contributions == (if nodes[i].kind != Coordinator && Participates(ps, nodes[i].id)
                             then nodes[i].contributions + 1 else nodes[i].contributions)
      && (nodes[i].kind == Coordinator ==> m.accuracy == newAccuracy)
      && (nodes[i].kind != Coordinator ==>
            && m.accuracy <= 99.9
            && (m.accuracy == 99.9 || nodes[i].accuracy + 0.02 <= m.accuracy < nodes[i].accuracy + 0.05))
  {
    assert NemiStore.IsDraw(accDraws[i]);
  }

  lemma AggregatePhaseEffect(nodes: seq<NetworkNode>, draws: seq<real>, newAccuracy: real,
                             accDraws: seq<real>, now: Time, i: nat)
    requires |draws| == |nodes| && |accDraws| == |nodes| && UniqueIds(nodes) && NemiStore.AllDraws(accDraws)
    requires i < |nodes|
    ensures var m := AggregatePhase(nodes, Participants(nodes, draws), newAccuracy, accDraws, now)[i];
      && m.id == nodes[i].id && m.kind == nodes[i].kind
      && m.status == Active && m.lastUpdate == now
      && m.contributions == (if nodes[i].kind != Coordinator && draws[i] > 0.3
                             then nodes[i].contributions + 1 else nodes[i].contributions)
      && (nodes[i].kind == Coordinator ==> m.accuracy == newAccuracy)
      && (nodes[i].kind != Coordinator ==>
            && m.accuracy <= 99.9
            && (m.accuracy == 99.9 || nodes[i].accuracy + 0.02 <= m.accuracy < nodes[i].accuracy + 0.05))
  {
    ParticipatesExactly(nodes, draws, i);
    AggregateAt(nodes, Participants(nodes, draws), newAccuracy, accDraws, now, i);
  }

  /** Selection followed by aggregation keeps every node's id, so unique ids
      stay unique. */
  lemma RoundKeepsIds(nodes: seq<NetworkNode>, ps: seq<NetworkNode>, newAccuracy: real,
                      accDraws: seq<real>, now: Time)
    requires |accDraws| == |nodes| && UniqueIds(nodes)
    ensures var r := AggregatePhase(SelectPhase(nodes, ps), ps, newAccuracy, accDraws, now);
      |r| == |nodes| && (forall i :: 0 <= i < |r| ==> r[i].id == nodes[i].id) && UniqueIds(r)
  {
    var selected := SelectPhase(nodes, ps);
    var r := AggregatePhase(selected, ps, newAccuracy, accDraws, now);
    assert forall i :: 0 <= i < |r| ==> r[i].id == selected[i].id == nodes[i].id;
  }

  /** Every budget in a window built by NextHistory comes from the old window
      or the new round. */
  lemma NextHistoryKeepsBudgetFloor(prev: seq<LearningRound>, newRound: LearningRound)
    requires forall k :: 0 <= k < |prev| ==> prev[k].privacyBudget >= 0.1
    requires newRound.privacyBudget >= 0.1
    ensures var h := NextHistory(prev, newRound);
      forall k :: 0 <= k < |h| ==> h[k].privacyBudget >= 0.1
  {
    var h := NextHistory(prev, newRound);
    var d := |prev| - (|h| - 1);
    forall k | 0 <= k < |h| ensures h[k].privacyBudget >= 0.1 {
      if k < |h| - 1 {
        assert h[k] == h[..|h| - 1][k] == prev[d + k];
      }
    }
  }

  /** The record appended to the history. `currentRound` is the value the
      round started with, before the increment. */
  function NewRound(currentRound: int, participating: nat, newAccuracy: real,
                    convDraw: real, now: Time): (r: LearningRound)
    requires NemiStore.IsDraw(convDraw)
    ensures r.round == currentRound + 1 && r.participatingNodes == participating
    ensures r.privacyBudget >= 0.1
    ensures 1.0 - currentRound as real * 0.02 >= 0.1 ==> r.privacyBudget == 1.0 - currentRound as real * 0.02
    ensures 1.0 - currentRound as real * 0.02 < 0.1 ==> r.privacyBudget == 0.1
    ensures r.globalAccuracy == newAccuracy && r.timestamp == now
    ensures 0.85 <= r.convergenceRate < 0.95
  {
    LearningRound(currentRound + 1, newAccuracy, participating, 0.85 + convDraw * 0.1,
                  NemiStore.Max(0.1, 1.0 - currentRound as real * 0.02), now)
  }

  /** `prev.slice(-19)`: the last 19 entries, or all of them. */
  function KeepLast(prev: seq<LearningRound>, n: nat): (r: seq<LearningRound>)
    ensures |r| == if |prev| <= n then |prev| else n
    ensures r == prev[|prev| - |r|..]
  {
    if |prev| <= n then prev else prev[|prev| - n..]
  }

  /** `[...prev.slice(-19), newRound]`: a window of at most 20 rounds that
      ends with the new one and keeps the newest earlier rounds in order. */
  function NextHistory(prev: seq<LearningRound>, newRound: LearningRound): (h: seq<LearningRound>)
    ensures 1 <= |h| <= HistoryWindow && h[|h| - 1] == newRound
    ensures |h| == (if |prev| < HistoryWindow then |prev| + 1 else HistoryWindow)
    ensures h[..|h| - 1] == prev[|prev| - (|h| - 1)..]
  {
    KeepLast(prev, HistoryWindow - 1) + [newRound]
  }

  /** Phase 3: one transmission per participant, towards the coordinator. */
  function TransmissionsFor(ps: seq<NetworkNode>): (ts: seq<Transmission>)
    ensures |ts| == |ps|
    ensures forall k :: 0 <= k < |ps| ==> ts[k] == Transmission(ps[k].id, "coordinator", 0)
  {
    seq(|ps|, k requires 0 <= k < |ps| => Transmission(ps[k].id, "coordinator", 0))
  }

  /** The transmission list with every progress set to `p`. */
  function WithProgress(ts: seq<Transmission>, p: int): (r: seq<Transmission>)
    ensures |r| == |ts| && forall k :: 0 <= k < |ts| ==> r[k] == ts[k].(progress := p)
  {
    seq(|ts|, k requires 0 <= k < |ts| => ts[k].(progress := p))
  }

  /** The animation loop `for (progress = 0; progress <= 100; progress += 10)`:
      the successive transmission lists it shows, 0%, 10%, ..., 100%. */
  method AnimateTransmissions(ts: seq<Transmission>) returns (frames: seq<seq<Transmission>>)
    ensures |frames| == 11
    ensures forall f :: 0 <= f < 11 ==>
      (|frames[f]| == |ts| && forall k :: 0 <= k < |ts| ==> frames[f][k] == ts[k].(progress := 10 * f))
    ensures forall k :: 0 <= k < |ts| ==> frames[10][k].progress == 100
  {
    frames := [];
    var current := ts;
    var progress := 0;
    while progress <= 100
      invariant 0 <= progress <= 110 && progress % 10 == 0 && |frames| == progress / 10
      invariant |current| == |ts| && forall k :: 0 <= k < |ts| ==> current[k].from == ts[k].from && current[k].to == ts[k].to
      invariant forall f :: 0 <= f < |frames| ==> frames[f] == WithProgress(ts, 10 * f)
    {
      current := WithProgress(current, progress);
      assert current == WithProgress(ts, progress);
      frames := frames + [current];
      progress := progress + 10;
    }
  }

  /** The history window is never longer than 20, every budget in it is at
      least 0.1, and node ids are unique. */
  predicate WellFormed(nodes: seq<NetworkNode>, history: seq<LearningRound>)
  {
    && |history| <= HistoryWindow
    && (forall k :: 0 <= k < |history| ==> history[k].privacyBudget >= 0.1)
    && UniqueIds(nodes)
  }

  /** A round keeps the view well formed. */
  lemma RoundKeepsWellFormed(nodes: seq<NetworkNode>, history: seq<LearningRound>, currentRound: int,
                             selectDraws: seq<real>, acc: real, convDraw: real, accDraws: seq<real>, now: Time)
    requires WellFormed(nodes, history)
    requires |selectDraws| == |nodes| && |accDraws| == |nodes| && NemiStore.IsDraw(convDraw)
    ensures var ps := Participants(nodes, selectDraws);
      WellFormed(AggregatePhase(SelectPhase(nodes, ps), ps, acc, accDraws, now),
                 NextHistory(history, NewRound(currentRound, |ps|, acc, convDraw, now)))
  {
    var ps := Participants(nodes, selectDraws);
    NextHistoryKeepsBudgetFloor(history, NewRound(currentRound, |ps|, acc, convDraw, now));
    RoundKeepsIds(nodes, ps, acc, accDraws, now);
  }

  class FederatedView {
    var nodes: seq<NetworkNode>
    var learningHistory: seq<LearningRound>
    var currentRound: int
    var isLearning: bool
    var transmissionData: seq<Transmission>

    ghost predicate Valid()
      reads this
    {
      WellFormed(nodes, learningHistory)
    }

    /** The view after its mount effect has seeded nodes and history. */
    constructor (historyDraws: seq<HistoryDraw>, now: Time)
      requires |historyDraws| == HistoryWindow && forall k :: 0 <= k < |historyDraws| ==> ValidHistoryDraw(historyDraws[k])
      ensures Valid()
      ensures nodes == InitialNetwork(now) && currentRound == 20 && !isLearning && transmissionData == []
      ensures |learningHistory| == HistoryWindow
      ensures forall k :: 0 <= k < HistoryWindow ==> learningHistory[k] == HistoryEntry(k + 1, historyDraws[k], now)
    {
      nodes := InitialNetwork(now);
      var h := InitialHistory(historyDraws, now);
      learningHistory := h;
      currentRound := 20;
      isLearning := false;
      transmissionData := [];
    }

    /** Phase 3 of a round: one transmission per participant, animated
        from 0% to 100%; the last frame is what stays displayed. */
    method Transmit(ps: seq<NetworkNode>)
      modifies this`transmissionData
      ensures transmissionData == WithProgress(TransmissionsFor(ps), 100)
    {
      var ts := TransmissionsFor(ps);
      transmissionData := ts;
      var frames := AnimateTransmissions(ts);
      transmissionData := frames[10];
    }

    /** `startLearningRound`: a no-op while a round is in progress; otherwise
        select, train, transmit, aggregate and append the round, then ask the
        store for its own round (`notifyStore`). `selectDraws[i]` and
        `accDraws[i]` belong to node `i`; `globalAccuracy` is the store's
        value when the round starts. */
    method StartLearningRound(selectDraws: seq<real>, accDraw: real, convDraw: real,
                              accDraws: seq<real>, globalAccuracy: real, now: Time)
      returns (notifyStore: bool)
      requires Valid()
      requires |selectDraws| == |nodes| && |accDraws| == |nodes| && NemiStore.AllDraws(selectDraws) && NemiStore.AllDraws(accDraws)
      requires NemiStore.IsDraw(accDraw) && NemiStore.IsDraw(convDraw)
      modifies this
      ensures Valid()
      ensures old(isLearning) ==> !notifyStore && unchanged(this)
      ensures !old(isLearning) ==>
        var ps := Participants(old(nodes), selectDraws);
        var acc := NewAccuracy(globalAccuracy, accDraw);
        && notifyStore && !isLearning && transmissionData == []
        && currentRound == old(currentRound) + 1
        && learningHistory == NextHistory(old(learningHistory), NewRound(old(currentRound), |ps|, acc, convDraw, now))
        && nodes == AggregatePhase(SelectPhase(old(nodes), ps), ps, acc, accDraws, now)
    {
      if isLearning {
        notifyStore := false;
        return;
      }
      isLearning := true;
      var roundAtStart := currentRound;
      currentRound := currentRound + 1;

      // Phase 1: select participants.
      var ps := Participants(nodes, selectDraws);
      nodes := SelectPhase(nodes, ps);

      Transmit(ps);

      // Phase 4: aggregation and history.
      var acc := NewAccuracy(globalAccuracy, accDraw);
      var round := NewRound(roundAtStart, |ps|, acc, convDraw, now);
      RoundKeepsWellFormed(old(nodes), learningHistory, roundAtStart, selectDraws, acc, convDraw, accDraws, now);
      learningHistory := NextHistory(learningHistory, round);
      nodes := AggregatePhase(nodes, ps, acc, accDraws, now);

      transmissionData := [];
      isLearning := false;
      notifyStore := true;
    }
  }
}
