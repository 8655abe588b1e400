/** What the beam table promises: its size and row order, the order of the
    elements within a beam, the zero reference of the delays, the range of the
    phases, and the hardware address on every row. */
module BeamProperties {
  import opened Types
  import opened JsNumber
  import opened Topology
  import opened Quantiser
  import opened StableSort
  import opened BeamTable
  import opened Seqs

  /** The number of elements of the array. */
  function Elements(job: Job): nat
  {
    job.config.nx * job.config.ny
  }

  // ---------------------------------------------------------------------------
  // The grid and its sorted form
  // ---------------------------------------------------------------------------

  /** Every entry of the grid is the entry of some element of the array. */
  lemma {:induction false} GridMember(job: Job, dc: (real, real), h: nat, k: nat)
    requires ValidJob(job) && k < |Grid(job, dc, h)|
    ensures exists x: nat, y: nat :: x < job.config.nx && y < h && Grid(job, dc, h)[k] == Item(job, dc, x, y)
    decreases h
  {
    var nx := job.config.nx;
    GridLength(job, dc, h - 1);
    var prev := Grid(job, dc, h - 1);
    if k < |prev| {
      GridMember(job, dc, h - 1, k);
    } else {
      var x: nat := k - |prev|;
      assert Grid(job, dc, h)[k] == GridRow(job, dc, h - 1, nx)[x];
    }
  }

  /** The elements of one beam, in row order, for the direction cosines `dc`. */
  lemma BeamItemsPermutation(job: Job, dc: (real, real))
    requires ValidJob(job)
    ensures |BeamItems(job, dc)| == Elements(job)
    ensures multiset(BeamItems(job, dc)) == multiset(Grid(job, dc, job.config.ny))
  {
    GridLength(job, dc, job.config.ny);
    SortPermutation(Grid(job, dc, job.config.ny), ElementOrder);
  }

  /** Each entry of a beam's sorted grid is the entry of an element of the array. */
  lemma BeamItemMember(job: Job, dc: (real, real), e: nat)
    requires ValidJob(job) && e < |BeamItems(job, dc)|
    ensures exists x: nat, y: nat :: x < job.config.nx && y < job.config.ny && BeamItems(job, dc)[e] == Item(job, dc, x, y)
  {
    var g := Grid(job, dc, job.config.ny);
    BeamItemsPermutation(job, dc);
    assert BeamItems(job, dc)[e] in multiset(g);
    var k :| 0 <= k < |g| && g[k] == BeamItems(job, dc)[e];
    GridMember(job, dc, job.config.ny, k);
  }

  /** The rows of a beam are the rows of its sorted grid entries. */
  lemma BeamRowAt(job: Job, beamId: int, p: (real, real), e: nat)
    requires ValidJob(job) && e < |BeamRows(job, beamId, p)|
    ensures var t := BeamTargets(job.scan.system, p.0, p.1);
      var dc := job.dir(t.theta, t.phi);
      && e < |BeamItems(job, dc)|
      && BeamRows(job, beamId, p)[e] == ItemRow(job, t, beamId, MinRaw(Grid(job, dc, job.config.ny)), BeamItems(job, dc)[e])
  {
  }

  // ---------------------------------------------------------------------------
  // One beam
  // ---------------------------------------------------------------------------

  /** Every beam has one row per element of the array. */
  lemma BeamRowCount(job: Job, beamId: int, p: (real, real))
    requires ValidJob(job)
    ensures |BeamRows(job, beamId, p)| == Elements(job)
  {
    var t := BeamTargets(job.scan.system, p.0, p.1);
    BeamItemsPermutation(job, job.dir(t.theta, t.phi));
  }

  /** Within a beam the rows are in non-decreasing Element_ID. */
  lemma BeamElementOrder(job: Job, beamId: int, p: (real, real))
    requires ValidJob(job)
    ensures var rows := BeamRows(job, beamId, p);
      forall i, j :: 0 <= i < j < |rows| ==> rows[i].elementId <= rows[j].elementId
  {
    var t := BeamTargets(job.scan.system, p.0, p.1);
    var dc := job.dir(t.theta, t.phi);
    var items := BeamItems(job, dc);
    var rows := BeamRows(job, beamId, p);
    SortSorted(Grid(job, dc, job.config.ny), ElementOrder);
    forall i, j | 0 <= i < j < |rows| ensures rows[i].elementId <= rows[j].elementId {
      BeamRowAt(job, beamId, p, i);
      BeamRowAt(job, beamId, p, j);
      assert LexLe(ElementOrder(items[i]), ElementOrder(items[j]));
    }
  }

  /** The sort is stable: the elements that share an Element_ID keep the order in
      which the grid generated them (y outer, x inner), and none is lost or added. */
  lemma BeamOrderStable(job: Job, dc: (real, real), id: int)
    requires ValidJob(job)
    ensures KeyFilter(BeamItems(job, dc), ElementOrder, [id as real])
         == KeyFilter(Grid(job, dc, job.config.ny), ElementOrder, [id as real])
    ensures multiset(BeamItems(job, dc)) == multiset(Grid(job, dc, job.config.ny))
  {
    SortStable(Grid(job, dc, job.config.ny), ElementOrder, [id as real]);
    BeamItemsPermutation(job, dc);
  }

  /** Every row of a beam describes an element of the array at its place in the
      grid, with the hardware address the topology gives that place. */
  lemma BeamRowAddress(job: Job, beamId: int, p: (real, real), e: nat)
    requires ValidJob(job) && e < |BeamRows(job, beamId, p)|
    ensures var r := BeamRows(job, beamId, p)[e];
      && r.beamId == beamId && r.channel == job.config.channelName
      && r.posX < job.config.nx && r.posY < job.config.ny
      && HardwareAddress(r.chipId, r.portId, r.elementId)
         == Resolve(job.config.topology, job.config.nx, job.config.ny, r.posX, r.posY)
  {
    var t := BeamTargets(job.scan.system, p.0, p.1);
    var dc := job.dir(t.theta, t.phi);
    BeamRowAt(job, beamId, p, e);
    BeamItemMember(job, dc, e);
  }

  /** Every element of the array appears in the sorted grid of every beam. */
  lemma ItemInBeam(job: Job, dc: (real, real), x: nat, y: nat)
    requires ValidJob(job) && x < job.config.nx && y < job.config.ny
    ensures exists e :: 0 <= e < |BeamItems(job, dc)| && BeamItems(job, dc)[e] == Item(job, dc, x, y)
  {
    var g := Grid(job, dc, job.config.ny);
    var s := BeamItems(job, dc);
    var it := Item(job, dc, x, y);
    GridAt(job, dc, job.config.ny, x, y, y * job.config.nx + x);
    assert it in multiset(g);
    BeamItemsPermutation(job, dc);
    assert it in multiset(s);
    assert it in s;
  }

  /** Every element of the array has a row in every beam. */
  lemma BeamCoversArray(job: Job, beamId: int, p: (real, real), x: nat, y: nat)
    requires ValidJob(job) && x < job.config.nx && y < job.config.ny
    ensures var rows := BeamRows(job, beamId, p);
      exists e :: 0 <= e < |rows| && rows[e].posX == x && rows[e].posY == y
  {
    var t := BeamTargets(job.scan.system, p.0, p.1);
    var dc := job.dir(t.theta, t.phi);
    var items := BeamItems(job, dc);
    ItemInBeam(job, dc, x, y);
    var e :| 0 <= e < |items| && items[e] == Item(job, dc, x, y);
    BeamRowCount(job, beamId, p);
    BeamItemsPermutation(job, dc);
    BeamRowAt(job, beamId, p, e);
    var r := BeamRows(job, beamId, p)[e];
    assert r.posX == x && r.posY == y;
  }

  // ---------------------------------------------------------------------------
  // Delays and phases
  // ---------------------------------------------------------------------------

  /** The earliest arrival time of the beam for sweep values `p`. */
  function BeamMin(job: Job, p: (real, real)): real
    requires ValidJob(job)
  {
    var t := BeamTargets(job.scan.system, p.0, p.1);
    MinRaw(Grid(job, job.dir(t.theta, t.phi), job.config.ny))
  }

  /** The grid entry behind row `e` of the beam for sweep values `p`. */
  function BeamItem(job: Job, p: (real, real), e: nat): GridItem
    requires ValidJob(job)
    requires var t := BeamTargets(job.scan.system, p.0, p.1); e < |BeamItems(job, job.dir(t.theta, t.phi))|
  {
    var t := BeamTargets(job.scan.system, p.0, p.1);
    BeamItems(job, job.dir(t.theta, t.phi))[e]
  }

  /** No entry of a beam's sorted grid arrives before the beam's earliest time. */
  lemma NotBeforeMin(job: Job, dc: (real, real), e: nat)
    requires ValidJob(job) && e < |BeamItems(job, dc)|
    ensures BeamItems(job, dc)[e].rawSec >= MinRaw(Grid(job, dc, job.config.ny))
  {
    BeamItemsPermutation(job, dc);
    assert BeamItems(job, dc)[e] in multiset(Grid(job, dc, job.config.ny));
  }

  /** The delay and phase cells of the row of an element that arrives no earlier
      than `minSec`. */
  lemma ItemDelay(job: Job, t: Targets, beamId: int, minSec: real, item: GridItem)
    requires ValidJob(job) && item.rawSec >= minSec
    ensures var d := TheoryDelay(item.rawSec, minSec);
      var r := ItemRow(job, t, beamId, minSec, item);
      && d >= 0.0
      && 0.0 <= TheoryPhase(d, FrequencyHz(job)) < 360.0
      && r.theoryDelayPs == ToFixed(d, 2) && r.theoryDelayPs >= 0.0
      && r.theoryPhaseDeg == ToFixed(TheoryPhase(d, FrequencyHz(job)), 2) && r.theoryPhaseDeg >= 0.0
  {
    var d := TheoryDelay(item.rawSec, minSec);
    assert d >= 0.0;
    assert d * 0.000000000001 * FrequencyHz(job) * 360.0 >= 0.0;
  }

  /** Each row's theoretical delay is its element's arrival time after the beam's
      earliest one, so it is never negative; its phase lies in [0, 360). The row
      shows both rounded to two decimals, which keeps the delay non-negative. */
  lemma DelayNonNegative(job: Job, beamId: int, p: (real, real), e: nat)
    requires ValidJob(job) && e < |BeamRows(job, beamId, p)|
    ensures var t := BeamTargets(job.scan.system, p.0, p.1);
      e < |BeamItems(job, job.dir(t.theta, t.phi))| &&
      var d := TheoryDelay(BeamItem(job, p, e).rawSec, BeamMin(job, p));
      var r := BeamRows(job, beamId, p)[e];
      && d >= 0.0
      && 0.0 <= TheoryPhase(d, FrequencyHz(job)) < 360.0
      && r.theoryDelayPs == ToFixed(d, 2) && r.theoryDelayPs >= 0.0
      && r.theoryPhaseDeg == ToFixed(TheoryPhase(d, FrequencyHz(job)), 2) && r.theoryPhaseDeg >= 0.0
  {
    var t := BeamTargets(job.scan.system, p.0, p.1);
    var dc := job.dir(t.theta, t.phi);
    BeamRowAt(job, beamId, p, e);
    NotBeforeMin(job, dc, e);
    ItemDelay(job, t, beamId, BeamMin(job, p), BeamItem(job, p, e));
  }

  /** An element that arrives first has delay and phase exactly 0. */
  lemma EarliestIsZero(job: Job, beamId: int, p: (real, real), e: nat)
    requires ValidJob(job) && e < |BeamRows(job, beamId, p)|
    requires var t := BeamTargets(job.scan.system, p.0, p.1);
      e < |BeamItems(job, job.dir(t.theta, t.phi))| && BeamItem(job, p, e).rawSec == BeamMin(job, p)
    ensures BeamRows(job, beamId, p)[e].theoryDelayPs == 0.0
    ensures BeamRows(job, beamId, p)[e].theoryPhaseDeg == 0.0
  {
    BeamRowAt(job, beamId, p, e);
    JsModIdentity(0.0, 360.0);
    ToFixedZero(2);
  }

  /** Every beam of a non-empty array has an element that arrives first: it is the
      zero reference of the beam's delays. */
  lemma ZeroReference(job: Job, beamId: int, p: (real, real))
    requires ValidJob(job) && Elements(job) > 0
    ensures var t := BeamTargets(job.scan.system, p.0, p.1);
      var items := BeamItems(job, job.dir(t.theta, t.phi));
      exists e :: 0 <= e < |items| && items[e].rawSec == BeamMin(job, p)
  {
    var t := BeamTargets(job.scan.system, p.0, p.1);
    var dc := job.dir(t.theta, t.phi);
    var g := Grid(job, dc, job.config.ny);
    BeamItemsPermutation(job, dc);
    var k :| 0 <= k < |g| && g[k].rawSec == MinRaw(g);
    assert g[k] in multiset(BeamItems(job, dc));
  }

  /** At broadside every element arrives at time 0. */
  lemma BroadsideGrid(job: Job, h: nat, k: nat)
    requires ValidJob(job) && k < |Grid(job, (0.0, 0.0), h)|
    ensures Grid(job, (0.0, 0.0), h)[k].rawSec == 0.0
  {
    GridMember(job, (0.0, 0.0), h, k);
  }

  /** At broadside the earliest arrival time of a non-empty grid is 0. */
  lemma BroadsideMin(job: Job, h: nat)
    requires ValidJob(job) && |Grid(job, (0.0, 0.0), h)| > 0
    ensures MinRaw(Grid(job, (0.0, 0.0), h)) == 0.0
  {
    var g := Grid(job, (0.0, 0.0), h);
    var k :| 0 <= k < |g| && g[k].rawSec == MinRaw(g);
    BroadsideGrid(job, h, k);
  }

  /** A beam at broadside (both direction cosines 0) has all delays and phases 0. */
  lemma BroadsideBeam(job: Job, beamId: int, p: (real, real), e: nat)
    requires ValidJob(job) && e < |BeamRows(job, beamId, p)|
    requires var t := BeamTargets(job.scan.system, p.0, p.1); job.dir(t.theta, t.phi) == (0.0, 0.0)
    ensures BeamRows(job, beamId, p)[e].theoryDelayPs == 0.0
    ensures BeamRows(job, beamId, p)[e].theoryPhaseDeg == 0.0
  {
    BeamRowCount(job, beamId, p);
    BeamItemsPermutation(job, (0.0, 0.0));
    GridLength(job, (0.0, 0.0), job.config.ny);
    BroadsideMin(job, job.config.ny);
    NotBeforeMin(job, (0.0, 0.0), e);
    BeamItemMember(job, (0.0, 0.0), e);
    assert BeamItem(job, p, e).rawSec == BeamMin(job, p);
    EarliestIsZero(job, beamId, p, e);
  }

  // ---------------------------------------------------------------------------
  // Targets and IC stages on every row
  // ---------------------------------------------------------------------------

  /** Target_Az is the azimuth under the truncating `%`, so a negative azimuth is
      kept negative instead of being brought into [0, 360). */
  lemma NegativeAzimuthKept(job: Job, beamId: int, p: (real, real), e: nat)
    requires ValidJob(job) && e < |BeamRows(job, beamId, p)|
    requires job.scan.system == AzEl && -360.0 < p.0 < 0.0
    ensures BeamRows(job, beamId, p)[e].targetAz == ToFixed(p.0, 2)
    ensures BeamRows(job, beamId, p)[e].targetAz <= 0.0
  {
    BeamRowAt(job, beamId, p, e);
    JsModIdentity(p.0, 360.0);
  }

  /** Every row carries one stage per IC, in IC-list order, and every stage's code
      lies between 0 and the code of the IC's maximum. */
  lemma RowStageCodes(job: Job, beamId: int, p: (real, real), e: nat, k: nat)
    requires ValidJob(job) && e < |BeamRows(job, beamId, p)| && k < |job.ics|
    requires job.ics[k].lsb > 0.0 && job.ics[k].max >= 0.0
    ensures var r := BeamRows(job, beamId, p)[e];
      && |r.stages| == |job.ics|
      && r.stages[k].name == job.ics[k].name
      && 0 <= r.stages[k].codeDec <= Code(job.ics[k].max, job.ics[k].lsb)
  {
    var t := BeamTargets(job.scan.system, p.0, p.1);
    var dc := job.dir(t.theta, t.phi);
    BeamRowAt(job, beamId, p, e);
    var item := BeamItems(job, dc)[e];
    var d := TheoryDelay(item.rawSec, MinRaw(Grid(job, dc, job.config.ny)));
    StageCodeBounds(job.ics[k], job.config.mode, d, item.calTtd, TheoryPhase(d, FrequencyHz(job)), item.calPs, PeriodPs(job));
  }

  // ---------------------------------------------------------------------------
  // The whole table
  // ---------------------------------------------------------------------------

  lemma {:induction false} PairsLength(r1: seq<real>, r2: seq<real>)
    ensures |Pairs(r1, r2)| == |r1| * |r2|
    decreases |r1|
  {
    if r1 != [] {
      PairsLength(r1[..|r1| - 1], r2);
      assert (|r1| - 1) * |r2| + |r2| == |r1| * |r2|;
    }
  }

  /** Beam number i*|r2| + j + 1 is outer value i with inner value j: the outer
      sweep is the slow axis. */
  lemma {:induction false} PairsAt(r1: seq<real>, r2: seq<real>, i: nat, j: nat, b: nat)
    requires i < |r1| && j < |r2| && b == i * |r2| + j
    ensures b < |Pairs(r1, r2)|
    ensures Pairs(r1, r2)[b] == (r1[i], r2[j])
    decreases |r1|
  {
    var init := r1[..|r1| - 1];
    PairsLength(r1, r2);
    PairsLength(init, r2);
    var m := |init| * |r2|;
    assert |Pairs(r1, r2)| == m + |r2|;
    if i < |r1| - 1 {
      PairsAt(init, r2, i, j, b);
      SlotBelow(i, j, |r2|, |init|);
    } else {
      assert b - m == j;
    }
  }

  /** Lists of equal length n, one after the other, make |bs| * n items. */
  lemma {:induction false} ConcatLength<T>(bs: seq<seq<T>>, n: nat)
    requires forall k :: 0 <= k < |bs| ==> |bs[k]| == n
    ensures |Concat(bs)| == |bs| * n
    decreases |bs|
  {
    if bs != [] {
      ConcatLength(bs[..|bs| - 1], n);
      assert (|bs| - 1) * n + n == |bs| * n;
    }
  }

  /** Item b*n + e of such a concatenation is item e of list b. */
  lemma {:induction false} ConcatAt<T>(bs: seq<seq<T>>, n: nat, b: nat, e: nat, k: nat)
    requires forall i :: 0 <= i < |bs| ==> |bs[i]| == n
    requires b < |bs| && e < n && k == b * n + e
    ensures k < |Concat(bs)|
    ensures Concat(bs)[k] == bs[b][e]
    decreases |bs|
  {
    var init := bs[..|bs| - 1];
    ConcatLength(bs, n);
    ConcatLength(init, n);
    var m := |init| * n;
    assert |Concat(bs)| == m + n;
    if b < |bs| - 1 {
      ConcatAt(init, n, b, e, k);
      SlotBelow(b, e, n, |init|);
    } else {
      assert k - m == e;
    }
  }

  /** Every beam of `ps` has one row per element. */
  lemma BeamsUniform(job: Job, ps: seq<(real, real)>)
    requires ValidJob(job)
    ensures forall k :: 0 <= k < |ps| ==> |Beams(job, ps)[k]| == Elements(job)
  {
    forall k | 0 <= k < |ps| ensures |Beams(job, ps)[k]| == Elements(job) {
      BeamRowCount(job, k + 1, ps[k]);
    }
  }

  lemma TableRowsLength(job: Job, ps: seq<(real, real)>)
    requires ValidJob(job)
    ensures |TableRows(job, ps)| == |ps| * Elements(job)
  {
    BeamsUniform(job, ps);
    ConcatLength(Beams(job, ps), Elements(job));
  }

  /** Row b*N + e of the table (N elements per beam) is row e of beam b + 1. */
  lemma TableRowsAt(job: Job, ps: seq<(real, real)>, b: nat, e: nat, k: nat)
    requires ValidJob(job) && b < |ps| && e < Elements(job) && k == b * Elements(job) + e
    ensures k < |TableRows(job, ps)|
    ensures e < |BeamRows(job, b + 1, ps[b])|
    ensures TableRows(job, ps)[k] == BeamRows(job, b + 1, ps[b])[e]
  {
    BeamsUniform(job, ps);
    ConcatAt(Beams(job, ps), Elements(job), b, e, k);
    BeamAt(job, ps, b);
  }

  lemma BeamAt(job: Job, ps: seq<(real, real)>, b: nat)
    requires ValidJob(job) && b < |ps|
    ensures Beams(job, ps)[b] == BeamRows(job, b + 1, ps[b])
  {
  }

  lemma MulAssoc(a: nat, b: nat, c: nat)
    ensures a * (b * c) == a * b * c
  {
  }

  /** The table has one row per element for every pair of sweep values. */
  lemma TableSize(job: Job)
    requires ValidJob(job)
    ensures |Table(job)| == |Range1(job)| * |Range2(job)| * job.config.nx * job.config.ny
  {
    var ps := Pairs(Range1(job), Range2(job));
    assert Table(job) == TableRows(job, ps);
    PairsLength(Range1(job), Range2(job));
    TableRowsLength(job, ps);
    MulAssoc(|Range1(job)| * |Range2(job)|, job.config.nx, job.config.ny);
  }

  /** Every row of a beam carries the beam's number. */
  lemma BeamRowId(job: Job, beamId: int, p: (real, real), e: nat)
    requires ValidJob(job) && e < |BeamRows(job, beamId, p)|
    ensures BeamRows(job, beamId, p)[e].beamId == beamId
  {
    BeamRowAt(job, beamId, p, e);
  }

  /** The table lists the beams in order, numbered 1, 2, ... with the first sweep
      (r1) as the outer loop and the second (r2) as the inner one, and within each
      beam the rows of its elements: row (i*|r2| + j)*N + e of the table is row e
      of beam i*|r2| + j + 1, the pair (r1[i], r2[j]). `Table` is this for the
      two sweeps of the scan range. */
  lemma TableOrder(job: Job, r1: seq<real>, r2: seq<real>, i: nat, j: nat, e: nat, k: nat)
    requires ValidJob(job) && i < |r1| && j < |r2| && e < Elements(job)
    requires k == (i * |r2| + j) * Elements(job) + e
    ensures k < |TableRows(job, Pairs(r1, r2))|
    ensures e < |BeamRows(job, i * |r2| + j + 1, (r1[i], r2[j]))|
    ensures TableRows(job, Pairs(r1, r2))[k] == BeamRows(job, i * |r2| + j + 1, (r1[i], r2[j]))[e]
    ensures TableRows(job, Pairs(r1, r2))[k].beamId == i * |r2| + j + 1
  {
    var b := i * |r2| + j;
    var ps := Pairs(r1, r2);
    PairsAt(r1, r2, i, j, b);
    TableRowsAt(job, ps, b, e, k);
    BeamRowId(job, b + 1, ps[b], e);
  }
}
