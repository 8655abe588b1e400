/** The beam-table generator `calculateBeamTable` (services/physics.ts:76-229).
    For every pair of sweep values it builds the element grid of the array, gives
    each element its hardware address and its geometric delay, makes the earliest
    element the zero reference, orders the elements by Element_ID and emits one row
    per element with the outputs of every IC stage. */
module BeamTable {
  import opened Types
  import opened JsNumber
  import opened Sweep
  import opened Topology
  import opened Quantiser
  import opened StableSort
  import opened Seqs

  /** The speed of light in m/s. */
  const SpeedOfLight: real := 299792458.0

  /** The trigonometry of a beam direction, which the model takes as given: for
      target angles (theta, phi) in degrees, the pair (sin θ cos φ, sin θ sin φ). */
  type DirectionCosines = (real, real) -> (real, real)

  /** Everything one table is computed from. */
  datatype Job = Job(
    config: ArrayConfig,
    scan: ScanRange,
    ics: seq<ICConfig>,
    ttdCal: CalibrationMap,
    psCal: CalibrationMap,
    dir: DirectionCosines)

  /** The conditions under which the source computes numbers at all: a positive
      frequency, at least one port per chip and no IC with a zero step. */
  predicate ValidJob(job: Job)
  {
    && job.config.frequencyGHz > 0.0
    && job.config.topology.elementsPerChip >= 1
    && forall i :: 0 <= i < |job.ics| ==> job.ics[i].lsb != 0.0
  }

  /** The four angles of one beam. */
  datatype Targets = Targets(az: real, el: real, theta: real, phi: real)

  /** One element of the grid before it becomes a row. */
  datatype GridItem = GridItem(x: nat, y: nat, hw: HardwareAddress, rawSec: real, calTtd: real, calPs: real)

  /** One row of the table. `calPsDeg` and `theoryPhaseDeg` are the numbers the
      source renders with a "deg" suffix; `hwAddr` is added by the display layer. */
  datatype Row = Row(
    channel: string,
    beamId: int,
    targetAz: real,
    targetEl: real,
    targetPhi: real,
    targetTheta: real,
    elementId: int,
    chipId: int,
    portId: int,
    posX: nat,
    posY: nat,
    calTtdPs: real,
    calPsDeg: real,
    theoryDelayPs: real,
    theoryPhaseDeg: real,
    stages: seq<StageOutput>,
    hwAddr: Option<string>)

  function FrequencyHz(job: Job): (f: real)
    requires ValidJob(job)
    ensures f > 0.0
  {
    job.config.frequencyGHz * 1000000000.0
  }

  /** One RF period in ps. */
  function PeriodPs(job: Job): (p: real)
    requires ValidJob(job)
    ensures p > 0.0
  {
    (1.0 / FrequencyHz(job)) * 1000000000000.0
  }

  /** The beam angles for sweep values (r1, r2): in AZ_EL they are azimuth and
      elevation, in THETA_PHI phi and theta; the other pair follows from
      theta = 90 - el and phi = az. */
  function BeamTargets(system: CoordinateSystem, r1: real, r2: real): (t: Targets)
    ensures t.theta == 90.0 - t.el && t.phi == t.az
    ensures system == AzEl ==> t.az == r1 && t.el == r2
    ensures system == ThetaPhi ==> t.phi == r1 && t.theta == r2
  {
    if system == ThetaPhi then Targets(r1, 90.0 - r2, r2, r1)
    else Targets(r1, r2, 90.0 - r2, r1)
  }

  /** The position in metres of element `i` of `n` along one axis, with the array
      centred on the origin. */
  function Position(i: nat, n: nat, pitchMm: real): real
  {
    (i as real - (n as real - 1.0) / 2.0) * pitchMm * 0.001
  }

  /** Elements mirrored about the centre of the axis sit at opposite positions. */
  lemma PositionCentred(i: nat, n: nat, pitchMm: real)
    requires i < n
    ensures Position(i, n, pitchMm) + Position(n - 1 - i, n, pitchMm) == 0.0
  {
    var c := (n as real - 1.0) / 2.0;
    var a := i as real - c;
    var b := (n - 1 - i) as real - c;
    assert b == -a;
    assert b * pitchMm == -(a * pitchMm);
  }

  /** The geometric arrival time of element (x, y) for direction cosines `dc`. */
  function GeoTime(a: ArrayConfig, x: nat, y: nat, dc: (real, real)): real
  {
    -(Position(x, a.nx, a.dxMm) * dc.0 + Position(y, a.ny, a.dyMm) * dc.1) / SpeedOfLight
  }

  /** A calibration value; an element without one reads 0. */
  function CalOf(cal: CalibrationMap, x: nat, y: nat): real
  {
    if (x as int, y as int) in cal then cal[(x as int, y as int)] else 0.0
  }

  /** The grid entry of element (x, y). */
  function Item(job: Job, dc: (real, real), x: nat, y: nat): GridItem
    requires ValidJob(job)
  {
    var a := job.config;
    GridItem(x, y, Resolve(a.topology, a.nx, a.ny, x, y), GeoTime(a, x, y, dc),
             CalOf(job.ttdCal, x, y), CalOf(job.psCal, x, y))
  }

  /** The first `w` elements of grid row `y`, x ascending. */
  function GridRow(job: Job, dc: (real, real), y: nat, w: nat): (r: seq<GridItem>)
    requires ValidJob(job)
    ensures |r| == w
    ensures forall x :: 0 <= x < w ==> r[x] == Item(job, dc, x, y)
  {
    if w == 0 then [] else GridRow(job, dc, y, w - 1) + [Item(job, dc, w - 1, y)]
  }

  /** The first `h` rows of the grid, y outer and x inner. */
  function Grid(job: Job, dc: (real, real), h: nat): (g: seq<GridItem>)
    requires ValidJob(job)
  {
    if h == 0 then [] else Grid(job, dc, h - 1) + GridRow(job, dc, h - 1, job.config.nx)
  }

  lemma {:induction false} GridLength(job: Job, dc: (real, real), h: nat)
    requires ValidJob(job)
    ensures |Grid(job, dc, h)| == h * job.config.nx
    decreases h
  {
    if h > 0 {
      GridLength(job, dc, h - 1);
      assert (h - 1) * job.config.nx + job.config.nx == h * job.config.nx;
    }
  }

  /** Element (x, y) sits at position y*nx + x of the grid. */
  lemma {:induction false} GridAt(job: Job, dc: (real, real), h: nat, x: nat, y: nat, k: nat)
    requires ValidJob(job) && x < job.config.nx && y < h && k == y * job.config.nx + x
    ensures k < |Grid(job, dc, h)|
    ensures Grid(job, dc, h)[k] == Item(job, dc, x, y)
    decreases h
  {
    var nx := job.config.nx;
    GridLength(job, dc, h);
    GridLength(job, dc, h - 1);
    var m := (h - 1) * nx;
    assert |Grid(job, dc, h)| == m + nx;
    if y < h - 1 {
      SlotBelow(y, x, nx, h - 1);
      GridAt(job, dc, h - 1, x, y, k);
    } else {
      assert k - m == x;
    }
  }

  /** The earliest arrival time of a non-empty grid (`Math.min`); 0 for no elements. */
  function MinRaw(items: seq<GridItem>): (m: real)
    ensures forall i :: 0 <= i < |items| ==> m <= items[i].rawSec
    ensures |items| > 0 ==> exists i :: 0 <= i < |items| && items[i].rawSec == m
  {
    if |items| == 0 then 0.0
    else if |items| == 1 then items[0].rawSec
    else
      var m := MinRaw(items[..|items| - 1]);
      var last := items[|items| - 1].rawSec;
      var r := if last < m then last else m;
      assert forall i :: 0 <= i < |items| - 1 ==> items[i] == items[..|items| - 1][i];
      r
  }

  /** The sort key of a grid entry: its Element_ID. */
  function ElementOrder(item: GridItem): seq<real>
  {
    [item.hw.elementId as real]
  }

  /** The elements of one beam in row order: the grid stably sorted by Element_ID. */
  function BeamItems(job: Job, dc: (real, real)): seq<GridItem>
    requires ValidJob(job)
  {
    Sort(Grid(job, dc, job.config.ny), ElementOrder)
  }

  /** The theoretical delay in ps: the arrival time after the earliest, scaled. */
  function TheoryDelay(rawSec: real, minSec: real): real
  {
    (rawSec - minSec) * 1000000000000.0
  }

  /** The theoretical phase in degrees: the delay as a fraction of the period, with
      the truncating remainder. */
  function TheoryPhase(delayPs: real, fHz: real): real
  {
    JsMod(delayPs * 0.000000000001 * fHz * 360.0, 360.0)
  }

  /** The row of `item` without its IC cells. */
  function BaseRow(job: Job, t: Targets, beamId: int, minSec: real, item: GridItem): Row
    requires ValidJob(job)
  {
    var delay := TheoryDelay(item.rawSec, minSec);
    var phase := TheoryPhase(delay, FrequencyHz(job));
    Row(job.config.channelName, beamId,
        ToFixed(JsMod(t.az, 360.0), 2), ToFixed(t.el, 2), ToFixed(JsMod(t.phi, 360.0), 2), ToFixed(t.theta, 2),
        item.hw.elementId, item.hw.chipId, item.hw.portId, item.x, item.y,
        item.calTtd, ToFixed(item.calPs, 2), ToFixed(delay, 2), ToFixed(phase, 2),
        [], None)
  }

  /** The IC cells of one element, one stage per IC in IC-list order. */
  function Stages(job: Job, ics: seq<ICConfig>, delayPs: real, calTtd: real, phaseDeg: real, calPs: real): (s: seq<StageOutput>)
    requires ValidJob(job)
    requires forall i :: 0 <= i < |ics| ==> ics[i].lsb != 0.0
    ensures |s| == |ics|
  {
    seq(|ics|, i requires 0 <= i < |ics| => Stage(ics[i], job.config.mode, delayPs, calTtd, phaseDeg, calPs, PeriodPs(job)))
  }

  /** The full row of `item`. */
  function ItemRow(job: Job, t: Targets, beamId: int, minSec: real, item: GridItem): (r: Row)
    requires ValidJob(job)
  {
    var delay := TheoryDelay(item.rawSec, minSec);
    var phase := TheoryPhase(delay, FrequencyHz(job));
    BaseRow(job, t, beamId, minSec, item).(stages := Stages(job, job.ics, delay, item.calTtd, phase, item.calPs))
  }

  /** The rows of `items`, in order. */
  function ItemRows(job: Job, t: Targets, beamId: int, minSec: real, items: seq<GridItem>): (rows: seq<Row>)
    requires ValidJob(job)
    ensures |rows| == |items|
  {
    seq(|items|, i requires 0 <= i < |items| => ItemRow(job, t, beamId, minSec, items[i]))
  }

  /** The rows of the beam numbered `beamId` for sweep values `p`. */
  function BeamRows(job: Job, beamId: int, p: (real, real)): seq<Row>
    requires ValidJob(job)
  {
    var t := BeamTargets(job.scan.system, p.0, p.1);
    var dc := job.dir(t.theta, t.phi);
    ItemRows(job, t, beamId, MinRaw(Grid(job, dc, job.config.ny)), BeamItems(job, dc))
  }

  /** Every pair of an outer value from `r1` with an inner value from `r2`. */
  function Pairs(r1: seq<real>, r2: seq<real>): (ps: seq<(real, real)>)
  {
    if r1 == [] then [] else Pairs(r1[..|r1| - 1], r2) + OuterPairs(r1[|r1| - 1], r2)
  }

  /** The rows of each beam of `ps`, the beams numbered from 1. */
  function Beams(job: Job, ps: seq<(real, real)>): (bs: seq<seq<Row>>)
    requires ValidJob(job)
    ensures |bs| == |ps|
  {
    seq(|ps|, b requires 0 <= b < |ps| => BeamRows(job, b + 1, ps[b]))
  }

  /** The lists of `bs` one after the other. */
  function Concat<T>(bs: seq<seq<T>>): seq<T>
  {
    if bs == [] then [] else Concat(bs[..|bs| - 1]) + bs[|bs| - 1]
  }

  /** The rows of the beams `ps`, beam after beam. */
  function TableRows(job: Job, ps: seq<(real, real)>): seq<Row>
    requires ValidJob(job)
  {
    Concat(Beams(job, ps))
  }

  /** The sweep values of the two axes. */
  function Range1(job: Job): seq<real>
  {
    SweepPoints(job.scan.azStart, job.scan.azEnd, job.scan.azStep)
  }

  function Range2(job: Job): seq<real>
  {
    SweepPoints(job.scan.elStart, job.scan.elEnd, job.scan.elStep)
  }

  /** The table `calculateBeamTable` returns. */
  function Table(job: Job): seq<Row>
    requires ValidJob(job)
  {
    TableRows(job, Pairs(Range1(job), Range2(job)))
  }

  // ---------------------------------------------------------------------------
  // The generator
  // ---------------------------------------------------------------------------

  /** `calculateBeamTable(array, scan, ics, ttdCal, psCal)`: the outer sweep runs
      over range1, the inner over range2, and each pair is one beam. */
  method CalculateBeamTable(job: Job) returns (allData: seq<Row>)
    requires ValidJob(job)
    ensures allData == Table(job)
  {
    var range1 := GenerateRange(job.scan.azStart, job.scan.azEnd, job.scan.azStep);
    var range2 := GenerateRange(job.scan.elStart, job.scan.elEnd, job.scan.elStep);
    allData := [];
    var beamCounter := 1;
    for i := 0 to |range1|
      invariant allData == TableRows(job, Pairs(range1[..i], range2))
      invariant beamCounter == |Pairs(range1[..i], range2)| + 1
    {
      ghost var done := Pairs(range1[..i], range2);
      allData, beamCounter := InnerSweep(job, done, range1[i], range2, allData, beamCounter);
      PairsStep(range1, i, range2);
    }
    assert range1[..|range1|] == range1;
  }

  /** The inner sweep loop for one outer value `a`: one beam per inner value. */
  method InnerSweep(job: Job, ghost done: seq<(real, real)>, a: real, range2: seq<real>,
                    rows0: seq<Row>, counter0: int) returns (rows: seq<Row>, counter: int)
    requires ValidJob(job)
    requires rows0 == TableRows(job, done) && counter0 == |done| + 1
    ensures rows == TableRows(job, done + OuterPairs(a, range2))
    ensures counter == |done| + |range2| + 1
  {
    rows, counter := rows0, counter0;
    assert done + OuterPairs(a, range2[..0]) == done;
    for j := 0 to |range2|
      invariant rows == TableRows(job, done + OuterPairs(a, range2[..j]))
      invariant counter == |done| + j + 1
    {
      var beam := EmitBeam(job, counter, a, range2[j]);
      InnerStep(job, done, a, range2, j, rows, beam, counter);
      rows := rows + beam;
      counter := counter + 1;
    }
    assert range2[..|range2|] == range2;
  }

  /** One turn of the inner sweep loop appends the rows of the next beam. */
  lemma InnerStep(job: Job, done: seq<(real, real)>, a: real, r2: seq<real>, j: nat,
                  rows: seq<Row>, beam: seq<Row>, beamId: int)
    requires ValidJob(job) && j < |r2|
    requires rows == TableRows(job, done + OuterPairs(a, r2[..j]))
    requires beam == BeamRows(job, beamId, (a, r2[j])) && beamId == |done| + j + 1
    ensures rows + beam == TableRows(job, done + OuterPairs(a, r2[..j + 1]))
  {
    var ps := done + OuterPairs(a, r2[..j]);
    NextPair(done, a, r2, j);
    TableRowsStep(job, ps, (a, r2[j]), beamId, beam);
  }

  lemma NextPair(done: seq<(real, real)>, a: real, r2: seq<real>, j: nat)
    requires j < |r2|
    ensures done + OuterPairs(a, r2[..j + 1]) == (done + OuterPairs(a, r2[..j])) + [(a, r2[j])]
    ensures |done + OuterPairs(a, r2[..j])| == |done| + j
  {
    assert OuterPairs(a, r2[..j + 1]) == OuterPairs(a, r2[..j]) + [(a, r2[j])];
  }

  lemma TableRowsStep(job: Job, ps: seq<(real, real)>, p: (real, real), beamId: int, beam: seq<Row>)
    requires ValidJob(job) && beamId == |ps| + 1 && beam == BeamRows(job, beamId, p)
    ensures TableRows(job, ps + [p]) == TableRows(job, ps) + beam
  {
    BeamsStep(job, ps, p, beamId, beam);
    ConcatStep(Beams(job, ps), beam);
  }

  lemma BeamsStep(job: Job, ps: seq<(real, real)>, p: (real, real), beamId: int, beam: seq<Row>)
    requires ValidJob(job) && beamId == |ps| + 1 && beam == BeamRows(job, beamId, p)
    ensures Beams(job, ps + [p]) == Beams(job, ps) + [beam]
  {
  }

  lemma ConcatStep<T>(bs: seq<seq<T>>, b: seq<T>)
    ensures Concat(bs + [b]) == Concat(bs) + b
  {
    assert (bs + [b])[..|bs|] == bs;
  }

  lemma PairsStep(r1: seq<real>, i: nat, r2: seq<real>)
    requires i < |r1|
    ensures Pairs(r1[..i + 1], r2) == Pairs(r1[..i], r2) + OuterPairs(r1[i], r2)
  {
    assert r1[..i + 1][..i] == r1[..i];
  }

  /** Outer value `a` paired with each inner value of `r2`. */
  function OuterPairs(a: real, r2: seq<real>): (ps: seq<(real, real)>)
    ensures |ps| == |r2|
    ensures forall j :: 0 <= j < |r2| ==> ps[j] == (a, r2[j])
  {
    seq(|r2|, j requires 0 <= j < |r2| => (a, r2[j]))
  }

  /** The body of the inner sweep loop for one beam: build the grid, find the
      earliest element, sort the grid by Element_ID in place and emit its rows. */
  method EmitBeam(job: Job, beamId: int, r1Val: real, r2Val: real) returns (rows: seq<Row>)
    requires ValidJob(job)
    ensures rows == BeamRows(job, beamId, (r1Val, r2Val))
  {
    var t := BeamTargets(job.scan.system, r1Val, r2Val);
    var dc := job.dir(t.theta, t.phi);
    var tempGrid := BuildGrid(job, dc);
    var minSec := MinRaw(tempGrid);
    var a := new GridItem[|tempGrid|](i requires 0 <= i < |tempGrid| => tempGrid[i]);
    assert a[..] == tempGrid;
    SortInPlace(a, ElementOrder);
    var sorted := a[..];
    rows := EmitRows(job, t, beamId, minSec, sorted);
  }

  /** The loop over the sorted grid: one row per element, in order. */
  method EmitRows(job: Job, t: Targets, beamId: int, minSec: real, sorted: seq<GridItem>) returns (rows: seq<Row>)
    requires ValidJob(job)
    ensures rows == ItemRows(job, t, beamId, minSec, sorted)
  {
    ghost var all := ItemRows(job, t, beamId, minSec, sorted);
    rows := [];
    for k := 0 to |sorted|
      invariant rows == all[..k]
    {
      var row := ElementRow(job, t, beamId, minSec, sorted[k]);
      assert row == all[k];
      TakeNext(all, k);
      rows := rows + [row];
    }
    TakeAll(all);
  }

  /** The body of the loop over the sorted grid: one element's row. */
  method ElementRow(job: Job, t: Targets, beamId: int, minSec: real, item: GridItem) returns (row: Row)
    requires ValidJob(job)
    ensures row == ItemRow(job, t, beamId, minSec, item)
  {
    var delay := TheoryDelay(item.rawSec, minSec);
    var phase := TheoryPhase(delay, FrequencyHz(job));
    row := BaseRow(job, t, beamId, minSec, item);
    var stages := StageCells(job, delay, item.calTtd, phase, item.calPs);
    row := row.(stages := stages);
  }

  /** The nested y/x loops that fill the grid, y outer and x inner. */
  method BuildGrid(job: Job, dc: (real, real)) returns (tempGrid: seq<GridItem>)
    requires ValidJob(job)
    ensures tempGrid == Grid(job, dc, job.config.ny)
  {
    tempGrid := [];
    for y := 0 to job.config.ny
      invariant tempGrid == Grid(job, dc, y)
    {
      for x := 0 to job.config.nx
        invariant tempGrid == Grid(job, dc, y) + GridRow(job, dc, y, x)
      {
        tempGrid := tempGrid + [Item(job, dc, x, y)];
      }
    }
  }

  /** The loop over the ICs: each stage computes its target, quantises it and adds
      its four cells. */
  method StageCells(job: Job, delayPs: real, calTtd: real, phaseDeg: real, calPs: real) returns (stages: seq<StageOutput>)
    requires ValidJob(job)
    ensures stages == Stages(job, job.ics, delayPs, calTtd, phaseDeg, calPs)
  {
    var mode := job.config.mode;
    var periodPs := PeriodPs(job);
    ghost var all := Stages(job, job.ics, delayPs, calTtd, phaseDeg, calPs);
    stages := [];
    for k := 0 to |job.ics|
      invariant stages == all[..k]
    {
      var cell := StageCell(job.ics[k], mode, periodPs, delayPs, calTtd, phaseDeg, calPs);
      assert cell == all[k];
      TakeNext(all, k);
      stages := stages + [cell];
    }
    TakeAll(all);
  }

  /** The body of the IC loop for one IC. */
  method StageCell(ic: ICConfig, mode: BeamMode, periodPs: real, delayPs: real, calTtd: real, phaseDeg: real, calPs: real)
    returns (cell: StageOutput)
    requires ic.lsb != 0.0 && periodPs > 0.0
    ensures cell == Stage(ic, mode, delayPs, calTtd, phaseDeg, calPs, periodPs)
  {
    var target := 0.0;
    var unit := "";
    if ic.icType == TTD {
      unit := "ps";
      if mode != PsOnly {
        var combined := delayPs + calTtd;
        var adjusted := if ic.polarity == Inverted then ic.max - combined else combined;
        adjusted := adjusted + ic.offset;
        if mode == Hybrid {
          target := if adjusted < ic.max then adjusted else ic.max;
          target := if 0.0 > target then 0.0 else target;
        } else {
          target := JsMod(adjusted, periodPs);
          if target < 0.0 {
            target := target + periodPs;
          }
          if target > ic.max {
            target := ic.max;
          }
        }
      }
      assert target == TtdTarget(mode, ic, delayPs + calTtd, periodPs);
    } else {
      unit := "deg";
      if mode != TtdOnly {
        var combined := JsMod(phaseDeg + calPs, 360.0);
        var adjusted := if ic.polarity == Inverted then ic.max - combined else combined;
        adjusted := adjusted + ic.offset;
        target := JsMod(adjusted, 360.0);
        if target < 0.0 {
          target := target + 360.0;
        }
        if target > ic.max {
          target := ic.max;
        }
      }
      assert target == PsTarget(mode, ic, phaseDeg, calPs);
    }
    cell := Quantise(ic, unit, target);
  }
}
