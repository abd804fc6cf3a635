/** The micro-defect view: a scan generates a batch of eight random
    defects and reveals them progressively while the progress runs from 0
    to 100 in steps of 2; the panel shows the average size of what is
    revealed.

    The pauses between steps are flattened. `fixed2` stands for
    `toFixed(2)`, the rendering of a size with two decimals. */
module MicroDefectDetection {
  import NemiStore

  type Time = NemiStore.Time

  datatype DefectType = Scratch | Pit | Crack | Contamination | Discoloration
  datatype Severity = Low | Medium | High

  datatype Position = Position(x: real, y: real, z: real)

  datatype MicroDefect = MicroDefect(
    id: string,
    kind: DefectType,
    position: Position,
    size: real,
    severity: Severity,
    confidence: real,
    timestamp: Time,
    description: string)

  /** The draws behind one defect. `sev2` is only consulted when `sev1 <= 0.7`. */
  datatype DefectDraws = DefectDraws(
    kind: real, px: real, py: real, pz: real, size: real,
    sev1: real, sev2: real, confidence: real)

  predicate ValidDefectDraws(d: DefectDraws)
  {
    && NemiStore.IsDraw(d.kind) && NemiStore.IsDraw(d.px) && NemiStore.IsDraw(d.py)
    && NemiStore.IsDraw(d.pz) && NemiStore.IsDraw(d.size) && NemiStore.IsDraw(d.sev1)
    && NemiStore.IsDraw(d.sev2) && NemiStore.IsDraw(d.confidence)
  }

  const DefectTypes: seq<DefectType> := [Scratch, Pit, Crack, Contamination, Discoloration]
  const BatchSize := 8

  /** The phrase a description of `kind` opens with. */
  function Lead(kind: DefectType): string
  {
    match kind
    case Scratch => "Linear surface damage "
    case Pit => "Circular depression "
    case Crack => "Surface fracture "
    case Contamination => "Foreign particle "
    case Discoloration => "Color variation "
  }

  /** The unit and measure a description of `kind` closes with. */
  function Suffix(kind: DefectType): string
  {
    match kind
    case Scratch => "μm deep"
    case Pit => "μm diameter"
    case Crack => "μm width"
    case Contamination => "μm size"
    case Discoloration => "μm area"
  }

  /** The description of a defect: its type's phrase, the rendered size and
      the type's unit and measure. */
  function Describe(kind: DefectType, sizeText: string): string
  {
    Lead(kind) + sizeText + Suffix(kind)
  }

  /** A description opens with its type's phrase, followed by the rendered
      size and a unit. */
  lemma DescribeEmbedsSize(kind: DefectType, sizeText: string)
    ensures var s := Describe(kind, sizeText);
      && |s| > |Lead(kind)| + |sizeText|
      && s[..|Lead(kind)|] == Lead(kind)
      && s[|Lead(kind)|..|Lead(kind)| + |sizeText|] == sizeText
  {
  }

  /** Distinct types give distinct descriptions for the same rendered size. */
  lemma DescribeDeterminesType(k1: DefectType, k2: DefectType, sizeText: string)
    requires k1 != k2
    ensures Describe(k1, sizeText) != Describe(k2, sizeText)
  {
    var a, b := Describe(k1, sizeText), Describe(k2, sizeText);
    assert a[0] != b[0] || a[1] != b[1];
  }

  function DigitChar(i: nat): char
    requires i < 10
  {
    ('0' as int + i) as char
  }

  /** `defect_${Date.now()}_${i}` for a one-digit index. */
  function DefectId(stamp: string, i: nat): (id: string)
    requires i < 10
    ensures |id| == |stamp| + 9 && id[|id| - 1] == DigitChar(i)
  {
    "defect_" + stamp + "_" + [DigitChar(i)]
  }

  /** Ids of one batch differ by their index suffix. */
  lemma DefectIdsDistinct(stamp: string, i: nat, j: nat)
    requires i < 10 && j < 10 && i != j
    ensures DefectId(stamp, i) != DefectId(stamp, j)
  {
    var a, b := DefectId(stamp, i), DefectId(stamp, j);
    assert a[|a| - 1] != b[|b| - 1];
  }

  /** High above 0.7 on the first draw, else medium above 0.4 on the second. */
  function SeverityOf(d: DefectDraws): (sev: Severity)
    ensures sev == High <==> d.sev1 > 0.7
    ensures sev == Medium <==> d.sev1 <= 0.7 && d.sev2 > 0.4
    ensures sev == Low <==> d.sev1 <= 0.7 && d.sev2 <= 0.4
  {
    if d.sev1 > 0.7 then High else if d.sev2 > 0.4 then Medium else Low
  }

  /** Defect number `i` of a batch: one of the five types, a size in
      [0.5, 5.0) micrometres, a confidence in [0.8, 1.0), a position on the
      8 x 8 surface just above it, and the description of its type. */
  function DefectAt(d: DefectDraws, i: nat, stamp: string, now: Time, fixed2: real -> string): (m: MicroDefect)
    requires ValidDefectDraws(d) && i < 10
    ensures m.id == DefectId(stamp, i) && m.timestamp == now
    ensures m.severity == SeverityOf(d)
    ensures 0.5 <= m.size < 5.0 && 0.8 <= m.confidence < 1.0
    ensures -4.0 <= m.position.x < 4.0 && 0.15 <= m.position.y < 0.25 && -4.0 <= m.position.z < 4.0
    ensures m.description == Describe(m.kind, fixed2(m.size))
  {
    var undescribed := MicroDefect(
      DefectId(stamp, i),
      DefectTypes[NemiStore.PickIndex(d.kind, |DefectTypes|)],
      Position((d.px - 0.5) * 8.0, 0.15 + d.py * 0.1, (d.pz - 0.5) * 8.0),
      0.5 + d.size * 4.5,
      SeverityOf(d),
      0.8 + d.confidence * 0.2,
      now,
      "");
    undescribed.(description := Describe(undescribed.kind, fixed2(undescribed.size)))
  }

  /** `generateDefects`: exactly eight defects, `draws[i]` behind the i-th. */
  method GenerateDefects(draws: seq<DefectDraws>, stamp: string, now: Time, fixed2: real -> string)
    returns (batch: seq<MicroDefect>)
    requires |draws| == BatchSize && forall i :: 0 <= i < |draws| ==> ValidDefectDraws(draws[i])
    ensures |batch| == BatchSize
    ensures forall i :: 0 <= i < BatchSize ==> batch[i] == DefectAt(draws[i], i, stamp, now, fixed2)
    ensures forall i, j :: 0 <= i < j < |batch| ==> batch[i].id != batch[j].id
    ensures forall i :: 0 <= i < |batch| ==> 0.5 <= batch[i].size < 5.0 && 0.8 <= batch[i].confidence < 1.0
  {
    batch := [];
    var i := 0;
    while i < BatchSize
      invariant 0 <= i <= BatchSize && |batch| == i
      invariant forall k :: 0 <= k < i ==> batch[k] == DefectAt(draws[k], k, stamp, now, fixed2)
    {
      batch := batch + [DefectAt(draws[i], i, stamp, now, fixed2)];
      i := i + 1;
    }
    BatchFacts(batch, draws, stamp, now, fixed2);
  }

  /** A batch built by DefectAt has distinct ids and in-range sizes and
      confidences. */
  lemma BatchFacts(batch: seq<MicroDefect>, draws: seq<DefectDraws>, stamp: string, now: Time, fixed2: real -> string)
    requires |draws| == BatchSize && forall i :: 0 <= i < |draws| ==> ValidDefectDraws(draws[i])
    requires |batch| == BatchSize
    requires forall i :: 0 <= i < BatchSize ==> batch[i] == DefectAt(draws[i], i, stamp, now, fixed2)
    ensures forall i, j :: 0 <= i < j < |batch| ==> batch[i].id != batch[j].id
    ensures forall i :: 0 <= i < |batch| ==> 0.5 <= batch[i].size < 5.0 && 0.8 <= batch[i].confidence < 1.0
  {
    forall i, j | 0 <= i < j < |batch| ensures batch[i].id != batch[j].id {
      DefectIdsDistinct(stamp, i, j);
    }
  }

  /** `Math.floor((i / 100) * n)`: how many defects are shown at progress `i`. */
  function RevealCount(i: int, n: nat): (k: int)
    ensures 0 <= i <= 100 ==> 0 <= k <= n
  {
    ((i as real / 100.0) * n as real).Floor
  }

  /** The reveal count is the integer `i * n / 100`, between 0 and `n`. */
  lemma RevealCountExact(i: int, n: nat)
    requires 0 <= i <= 100
    ensures RevealCount(i, n) == (i * n) / 100
    ensures 0 <= RevealCount(i, n) <= n
  {
    var q := (i * n) / 100;
    assert q * 100 <= i * n < q * 100 + 100;
    assert (i as real / 100.0) * n as real == (i * n) as real / 100.0;
    assert i * n <= 100 * n;
  }

  /** Reveal counts never decrease as the scan progresses; at 100 the whole
      batch is revealed. */
  lemma RevealMonotone(i: int, j: int, n: nat)
    requires 0 <= i <= j <= 100
    ensures RevealCount(i, n) <= RevealCount(j, n)
    ensures RevealCount(100, n) == n
  {
    RevealCountExact(i, n);
    RevealCountExact(j, n);
    RevealCountExact(100, n);
    assert i * n <= j * n;
  }

  /** What the panel shows at progress `i`. */
  function ScanFrame(batch: seq<MicroDefect>, i: int): (shown: seq<MicroDefect>)
    requires 0 <= i <= 100
    ensures |shown| == (i * |batch|) / 100 && shown == batch[..|shown|]
  {
    RevealCountExact(i, |batch|);
    batch[..RevealCount(i, |batch|)]
  }

  /** Earlier frames are prefixes of later ones. */
  lemma ScanFramesGrow(batch: seq<MicroDefect>, i: int, j: int)
    requires 0 <= i <= j <= 100
    ensures ScanFrame(batch, i) <= ScanFrame(batch, j)
    ensures ScanFrame(batch, 100) == batch
  {
    RevealMonotone(i, j, |batch|);
    RevealCountExact(i, |batch|);
    RevealCountExact(j, |batch|);
  }

  function SumSizes(ds: seq<MicroDefect>): real
    decreases |ds|
  {
    if ds == [] then 0.0 else ds[0].size + SumSizes(ds[1..])
  }

  /** The "Avg Size" metric: 0 for an empty list, the mean size otherwise. */
  function AverageSize(ds: seq<MicroDefect>): (avg: real)
    ensures ds == [] ==> avg == 0.0
    ensures ds != [] ==> avg * |ds| as real == SumSizes(ds)
  {
    if |ds| > 0 then SumSizes(ds) / |ds| as real else 0.0
  }

  lemma {:induction false} SumSizesBounds(ds: seq<MicroDefect>, lo: real, hi: real)
    requires forall k :: 0 <= k < |ds| ==> lo <= ds[k].size < hi
    ensures lo * |ds| as real <= SumSizes(ds) <= hi * |ds| as real
    ensures ds != [] ==> SumSizes(ds) < hi * |ds| as real
    decreases |ds|
  {
    if ds != [] {
      SumSizesBounds(ds[1..], lo, hi);
      assert lo * |ds| as real == lo + lo * |ds[1..]| as real;
      assert hi * |ds| as real == hi + hi * |ds[1..]| as real;
    }
  }

  /** The mean of sizes in [lo, hi) lies in [lo, hi): a revealed batch shows
      an average size in [0.5, 5.0). */
  lemma AverageSizeBounds(ds: seq<MicroDefect>, lo: real, hi: real)
    requires ds != [] && forall k :: 0 <= k < |ds| ==> lo <= ds[k].size < hi
    ensures lo <= AverageSize(ds) < hi
  {
    SumSizesBounds(ds, lo, hi);
    var n := |ds| as real;
    var avg := AverageSize(ds);
    assert avg * n == SumSizes(ds);
    assert (avg - lo) * n >= 0.0 && (hi - avg) * n > 0.0;
  }

  class MicroView {
    var detectedDefects: seq<MicroDefect>
    var isScanning: bool
    var scanningProgress: int

    constructor ()
      ensures detectedDefects == [] && !isScanning && scanningProgress == 0
    {
      detectedDefects := [];
      isScanning := false;
      scanningProgress := 0;
    }

    /** `startScanning`: a no-op while a scan is running. Otherwise the
        panel is cleared, a batch is generated, and for progress 0, 2, ...,
        100 the panel shows the prefix ScanFrame(batch, progress); `frames`
        lists what it shows at each step. At the end the whole batch is
        shown, progress is 100 and scanning is over. */
    method StartScanning(draws: seq<DefectDraws>, stamp: string, now: Time, fixed2: real -> string)
      returns (batch: seq<MicroDefect>, frames: seq<seq<MicroDefect>>)
      requires |draws| == BatchSize && forall i :: 0 <= i < |draws| ==> ValidDefectDraws(draws[i])
      modifies this
      ensures old(isScanning) ==> unchanged(this) && batch == [] && frames == []
      ensures !old(isScanning) ==>
        && |batch| == BatchSize
        && (forall i :: 0 <= i < BatchSize ==> batch[i] == DefectAt(draws[i], i, stamp, now, fixed2))
        && |frames| == 51 && (forall k :: 0 <= k < 51 ==> frames[k] == ScanFrame(batch, 2 * k))
        && scanningProgress == 100 && detectedDefects == batch && !isScanning
    {
      if isScanning {
        return [], [];
      }
      isScanning := true;
      scanningProgress := 0;
      detectedDefects := [];
      batch := GenerateDefects(draws, stamp, now, fixed2);
      frames := [];
      var i := 0;
      while i <= 100
        invariant 0 <= i <= 102 && i % 2 == 0 && |frames| == i / 2
        invariant forall k :: 0 <= k < |frames| ==> frames[k] == ScanFrame(batch, 2 * k)
        invariant i == 0 ==> scanningProgress == 0 && detectedDefects == []
        invariant i > 0 ==> scanningProgress == i - 2 && detectedDefects == ScanFrame(batch, i - 2)
      {
        scanningProgress := i;
        detectedDefects := ScanFrame(batch, i);
        frames := frames + [detectedDefects];
        i := i + 2;
      }
      ScanFramesGrow(batch, 0, 100);
      isScanning := false;
    }
  }
}
