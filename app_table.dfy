/** The table helpers of the application shell (App.tsx): the row comparator and
    the sort of the preview table, the IC editor's LSB derivation, the switch
    between the AZ/EL and Θ/Φ scan ranges, the column layout of the table, the
    list of distinct beams, the rows of the mapping template and the `HW_Addr`
    cell. React state, rendering and file downloads are not modelled: each helper
    takes the state it reads as parameters and returns what it would store. */
module AppTable {
  import opened Seqs
  import opened Types
  import opened JsNumber
  import opened Text
  import opened StableSort
  import opened Topology
  import opened Quantiser
  import opened BeamTable
  import Ingestion

  // ---------------------------------------------------------------------------
  // compareElements and sortData
  // ---------------------------------------------------------------------------

  /** The element field the user sorts by: 'Element_ID', 'Pos_X' or 'Pos_Y'. */
  datatype ElementSortKey = ElementIdKey | PosXKey | PosYKey

  /** Which comes first: the beam ('BEAM') or the element ('ANTENNA'). */
  datatype SortPriority = BeamPriority | AntennaPriority

  function Field(r: Row, key: ElementSortKey): real
  {
    match key
    case ElementIdKey => r.elementId as real
    case PosXKey => r.posX as real
    case PosYKey => r.posY as real
  }

  /** `compareElements(a, b, key)`: the difference of the chosen fields; on a tie
      of element ids the position decides (x, then y), on a tie of positions the
      element id does. */
  function CompareElements(a: Row, b: Row, key: ElementSortKey): real
  {
    var va := Field(a, key);
    var vb := Field(b, key);
    if va != vb then va - vb
    else if key == ElementIdKey then
      var dx := a.posX as real - b.posX as real;
      if dx != 0.0 then dx else a.posY as real - b.posY as real
    else a.elementId as real - b.elementId as real
  }

  /** The fields `compareElements` looks at, in the order it looks at them. */
  function ElementFields(r: Row, key: ElementSortKey): (k: seq<real>)
    ensures |k| >= 2 && k[0] == Field(r, key)
  {
    match key
    case ElementIdKey => [r.elementId as real, r.posX as real, r.posY as real]
    case PosXKey => [r.posX as real, r.elementId as real]
    case PosYKey => [r.posY as real, r.elementId as real]
  }

  /** `compareElements` is the lexicographic order of the fields it reads: `a` may
      stay before `b` exactly when the comparator is not positive, and it reports
      a tie exactly when all those fields agree. */
  lemma CompareElementsIsLexOrder(a: Row, b: Row, key: ElementSortKey)
    ensures CompareElements(a, b, key) <= 0.0 <==> LexLe(ElementFields(a, key), ElementFields(b, key))
    ensures CompareElements(a, b, key) == 0.0 <==> ElementFields(a, key) == ElementFields(b, key)
  {
    var ka, kb := ElementFields(a, key), ElementFields(b, key);
    assert ka[1..][1..] == ka[2..] && kb[1..][1..] == kb[2..];
    if key == ElementIdKey {
      assert LexLe(ka[2..], kb[2..]) <==> ka[2] <= kb[2];
    } else {
      assert LexLe(ka[1..][1..], kb[1..][1..]);
    }
  }

  /** The comparator of `sortData`: with BEAM priority the azimuth, then the
      elevation, then `compareElements`; with ANTENNA priority `compareElements`
      first, then the azimuth and the elevation. */
  function Comparator(a: Row, b: Row, priority: SortPriority, eKey: ElementSortKey): real
  {
    if priority == BeamPriority then
      if a.targetAz != b.targetAz then a.targetAz - b.targetAz
      else if a.targetEl != b.targetEl then a.targetEl - b.targetEl
      else CompareElements(a, b, eKey)
    else
      var e := CompareElements(a, b, eKey);
      if e != 0.0 then e
      else if a.targetAz != b.targetAz then a.targetAz - b.targetAz
      else a.targetEl - b.targetEl
  }

  /** The fields the comparator reads, in its order of priority. */
  function SortFields(r: Row, priority: SortPriority, eKey: ElementSortKey): seq<real>
  {
    if priority == BeamPriority then [r.targetAz, r.targetEl] + ElementFields(r, eKey)
    else ElementFields(r, eKey) + [r.targetAz, r.targetEl]
  }

  /** The key `sortData` sorts by, as one function value. */
  function SortKey(priority: SortPriority, eKey: ElementSortKey): Row -> seq<real>
  {
    r => SortFields(r, priority, eKey)
  }

  /** Comparing `p1 + q1` with `p2 + q2` for prefixes of the same length: the
      prefixes decide unless they are equal. */
  lemma {:induction false} LexLeAppend(p1: seq<real>, q1: seq<real>, p2: seq<real>, q2: seq<real>)
    requires |p1| == |p2|
    ensures LexLe(p1 + q1, p2 + q2) <==> (p1 != p2 && LexLe(p1, p2)) || (p1 == p2 && LexLe(q1, q2))
    decreases |p1|
  {
    if p1 != [] {
      assert (p1 + q1)[0] == p1[0] && (p2 + q2)[0] == p2[0];
      assert (p1 + q1)[1..] == p1[1..] + q1 && (p2 + q2)[1..] == p2[1..] + q2;
      LexLeAppend(p1[1..], q1, p2[1..], q2);
      if p1[0] != p2[0] {
        assert p1 != p2;
      } else {
        assert p1 == p2 <==> p1[1..] == p2[1..] by {
          if p1[1..] == p2[1..] {
            assert p1 == [p1[0]] + p1[1..] && p2 == [p2[0]] + p2[1..];
          }
        }
      }
    } else {
      assert p1 + q1 == q1 && p2 + q2 == q2;
    }
  }

  /** The comparator of `sortData` is the lexicographic order of `SortFields`, so
      the stable sort by that key is the order `Array.prototype.sort` produces. */
  lemma ComparatorIsLexOrder(a: Row, b: Row, priority: SortPriority, eKey: ElementSortKey)
    ensures Comparator(a, b, priority, eKey) <= 0.0 <==> LexLe(SortFields(a, priority, eKey), SortFields(b, priority, eKey))
    ensures Comparator(a, b, priority, eKey) == 0.0 <==> SortFields(a, priority, eKey) == SortFields(b, priority, eKey)
  {
    var ea, eb := ElementFields(a, eKey), ElementFields(b, eKey);
    var ta, tb := [a.targetAz, a.targetEl], [b.targetAz, b.targetEl];
    CompareElementsIsLexOrder(a, b, eKey);
    assert ta[1..][1..] == [] && tb[1..][1..] == [];
    LexLeReflexive([]);
    if priority == BeamPriority {
      LexLeAppend(ta, ea, tb, eb);
      assert ta == tb <==> a.targetAz == b.targetAz && a.targetEl == b.targetEl;
      assert ta + ea == tb + eb <==> ta == tb && ea == eb by {
        if ta + ea == tb + eb {
          assert ta == (ta + ea)[..2] && tb == (tb + eb)[..2];
          assert ea == (ta + ea)[2..] && eb == (tb + eb)[2..];
        }
      }
    } else {
      assert |ea| == |eb|;
      LexLeAppend(ea, ta, eb, tb);
      assert ea + ta == eb + tb <==> ea == eb && ta == tb by {
        if ea + ta == eb + tb {
          assert ea == (ea + ta)[..|ea|] && eb == (eb + tb)[..|eb|];
          assert ta == (ea + ta)[|ea|..] && tb == (eb + tb)[|eb|..];
        }
      }
    }
  }

  /** `sortData`: a copy of the rows, sorted stably by the comparator; the input
      array is left as it was. */
  method SortData(data: array<Row>, priority: SortPriority, eKey: ElementSortKey) returns (sorted: array<Row>)
    ensures fresh(sorted)
    ensures sorted[..] == Sort(data[..], SortKey(priority, eKey))
  {
    sorted := new Row[data.Length];
    forall i | 0 <= i < data.Length {
      sorted[i] := data[i];
    }
    assert sorted[..] == data[..];
    SortInPlace(sorted, SortKey(priority, eKey));
  }

  /** The sorted table holds the same rows, each as often as before. */
  lemma SortDataPermutation(data: seq<Row>, priority: SortPriority, eKey: ElementSortKey)
    ensures multiset(Sort(data, SortKey(priority, eKey))) == multiset(data)
    ensures |Sort(data, SortKey(priority, eKey))| == |data|
  {
    SortPermutation(data, SortKey(priority, eKey));
    assert |multiset(Sort(data, SortKey(priority, eKey)))| == |multiset(data)|;
  }

  /** With BEAM priority the rows come by azimuth, then elevation, then element. */
  lemma BeamPriorityOrder(data: seq<Row>, eKey: ElementSortKey, i: nat, j: nat)
    requires var s := Sort(data, SortKey(BeamPriority, eKey)); i < j < |s|
    ensures var s := Sort(data, SortKey(BeamPriority, eKey));
      && s[i].targetAz <= s[j].targetAz
      && (s[i].targetAz == s[j].targetAz ==> s[i].targetEl <= s[j].targetEl)
      && (s[i].targetAz == s[j].targetAz && s[i].targetEl == s[j].targetEl ==> CompareElements(s[i], s[j], eKey) <= 0.0)
  {
    var s := Sort(data, SortKey(BeamPriority, eKey));
    SortSorted(data, SortKey(BeamPriority, eKey));
    assert LexLe(SortFields(s[i], BeamPriority, eKey), SortFields(s[j], BeamPriority, eKey));
    ComparatorIsLexOrder(s[i], s[j], BeamPriority, eKey);
  }

  /** With ANTENNA priority the rows come by element, then azimuth, then elevation. */
  lemma AntennaPriorityOrder(data: seq<Row>, eKey: ElementSortKey, i: nat, j: nat)
    requires var s := Sort(data, SortKey(AntennaPriority, eKey)); i < j < |s|
    ensures var s := Sort(data, SortKey(AntennaPriority, eKey));
      && CompareElements(s[i], s[j], eKey) <= 0.0
      && (CompareElements(s[i], s[j], eKey) == 0.0 ==> s[i].targetAz <= s[j].targetAz)
      && (CompareElements(s[i], s[j], eKey) == 0.0 && s[i].targetAz == s[j].targetAz ==> s[i].targetEl <= s[j].targetEl)
  {
    var s := Sort(data, SortKey(AntennaPriority, eKey));
    SortSorted(data, SortKey(AntennaPriority, eKey));
    assert LexLe(SortFields(s[i], AntennaPriority, eKey), SortFields(s[j], AntennaPriority, eKey));
    ComparatorIsLexOrder(s[i], s[j], AntennaPriority, eKey);
  }

  // ---------------------------------------------------------------------------
  // updateIc
  // ---------------------------------------------------------------------------

  /** The fields an edit supplies (`Partial<ICConfig>`): `None` for a field the
      edit does not mention. */
  datatype IcUpdate = IcUpdate(
    id: Option<string>,
    name: Option<string>,
    icType: Option<ICType>,
    lsb: Option<real>,
    max: Option<real>,
    bits: Option<int>,
    offset: Option<real>,
    polarity: Option<Polarity>)

  function Pick<T>(u: Option<T>, v: T): T
  {
    if u.Some? then u.value else v
  }

  /** `{ ...ic, ...updates }`. */
  function Merge(ic: ICConfig, u: IcUpdate): ICConfig
  {
    ICConfig(Pick(u.id, ic.id), Pick(u.name, ic.name), Pick(u.icType, ic.icType), Pick(u.lsb, ic.lsb),
             Pick(u.max, ic.max), if u.bits.Some? then u.bits else ic.bits, Pick(u.offset, ic.offset),
             Pick(u.polarity, ic.polarity))
  }

  /** The LSB is derived again: the edit touched `bits` or `max` and the merged
      configuration has a positive bit count. */
  predicate Rederives(next: ICConfig, u: IcUpdate)
  {
    (u.bits.Some? || u.max.Some?) && next.bits.Some? && next.bits.value > 0
  }

  /** The IC after an edit: the merged fields, with the LSB derived from `max` and
      `bits` when the edit touched either and the bit count is positive (a TTD
      spreads `max` over `2^bits - 1` steps, a phase shifter over `2^bits`). */
  function ApplyUpdate(ic: ICConfig, u: IcUpdate): (next: ICConfig)
    ensures next.(lsb := 0.0) == Merge(ic, u).(lsb := 0.0)
    ensures !Rederives(Merge(ic, u), u) ==> next.lsb == Pick(u.lsb, ic.lsb)
    ensures Rederives(Merge(ic, u), u) && next.icType == TTD ==>
      next.lsb * (Pow2(next.bits.value) - 1) as real == next.max
    ensures Rederives(Merge(ic, u), u) && next.icType == PS ==>
      next.lsb * Pow2(next.bits.value) as real == next.max
  {
    var m := Merge(ic, u);
    if Rederives(m, u) then
      var b := m.bits.value;
      assert Pow2(b) >= 2 by { assert Pow2(b) == 2 * Pow2(b - 1); }
      var steps := if m.icType == TTD then (Pow2(b) - 1) as real else Pow2(b) as real;
      m.(lsb := m.max / steps)
    else m
  }

  /** `updateIc(id, updates)`: the IC with that id gets the edit; every other IC
      is returned as it was, in the same place. */
  function UpdateIc(ics: seq<ICConfig>, id: string, u: IcUpdate): (r: seq<ICConfig>)
    ensures |r| == |ics|
    ensures forall i :: 0 <= i < |ics| && ics[i].id != id ==> r[i] == ics[i]
    ensures forall i :: 0 <= i < |ics| && ics[i].id == id ==> r[i] == ApplyUpdate(ics[i], u)
  {
    seq(|ics|, i requires 0 <= i < |ics| => if ics[i].id == id then ApplyUpdate(ics[i], u) else ics[i])
  }

  /** Applying the same edit again changes nothing more. */
  lemma UpdateIcIdempotent(ics: seq<ICConfig>, id: string, u: IcUpdate)
    requires u.id.None? || u.id == Some(id)
    ensures UpdateIc(UpdateIc(ics, id, u), id, u) == UpdateIc(ics, id, u)
  {
    var r := UpdateIc(ics, id, u);
    forall i | 0 <= i < |ics| ensures UpdateIc(r, id, u)[i] == r[i] {
      if ics[i].id == id {
        ApplyUpdateIdempotent(ics[i], u);
      }
    }
  }

  lemma ApplyUpdateIdempotent(ic: ICConfig, u: IcUpdate)
    ensures ApplyUpdate(ApplyUpdate(ic, u), u) == ApplyUpdate(ic, u)
  {
    var n := ApplyUpdate(ic, u);
    assert Merge(n, u).(lsb := 0.0) == Merge(ic, u).(lsb := 0.0);
    assert ApplyUpdate(n, u).(lsb := 0.0) == n.(lsb := 0.0);
  }

  /** For a TTD with a positive range, the derived LSB puts `max` exactly on the
      top code `2^bits - 1`. */
  lemma TtdTopCode(ic: ICConfig, u: IcUpdate)
    requires var n := ApplyUpdate(ic, u); Rederives(Merge(ic, u), u) && n.icType == TTD && n.max > 0.0
    ensures var n := ApplyUpdate(ic, u); n.lsb > 0.0 && Code(n.max, n.lsb) == Pow2(n.bits.value) - 1
  {
    var n := ApplyUpdate(ic, u);
    var steps := Pow2(n.bits.value) - 1;
    assert steps >= 1 by { assert Pow2(n.bits.value) == 2 * Pow2(n.bits.value - 1); }
    assert n.lsb * steps as real == n.max;
    assert n.lsb > 0.0;
    assert n.max / n.lsb == steps as real;
    JsRoundOfInt(steps);
  }

  // ---------------------------------------------------------------------------
  // handleCoordinateSwitch
  // ---------------------------------------------------------------------------

  /** The scan range after choosing `system`: unchanged for the current system;
      otherwise the azimuth fields stay and the elevation bounds are reflected
      about 90° (an elevation `el` is the polar angle `90 - el`), swapping ends. */
  function SwitchCoordinates(scan: ScanRange, system: CoordinateSystem): (r: ScanRange)
    ensures r.system == system
    ensures system == scan.system ==> r == scan
    ensures system != scan.system ==>
      && r.azStart == scan.azStart && r.azEnd == scan.azEnd && r.azStep == scan.azStep
      && r.elStep == scan.elStep
      && r.elStart + scan.elEnd == 90.0 && r.elEnd + scan.elStart == 90.0
    ensures r.elEnd - r.elStart == scan.elEnd - scan.elStart
  {
    if system == scan.system then scan
    else scan.(system := system, elStart := 90.0 - scan.elEnd, elEnd := 90.0 - scan.elStart)
  }

  /** Switching away and back restores the original range. */
  lemma SwitchTwice(scan: ScanRange, system: CoordinateSystem)
    ensures SwitchCoordinates(SwitchCoordinates(scan, system), scan.system) == scan
  {
    var r := SwitchCoordinates(scan, system);
    if system != scan.system {
      var back := SwitchCoordinates(r, scan.system);
      assert back.elStart == 90.0 - r.elEnd == scan.elStart;
      assert back.elEnd == 90.0 - r.elStart == scan.elEnd;
    }
  }

  // ---------------------------------------------------------------------------
  // activeColumns
  // ---------------------------------------------------------------------------

  /** A column group the user can show next to the targeting columns. */
  datatype ColumnGroup = Hardware | Theory | Logic

  const TargetingColumns: seq<string> :=
    ["Channel", "Beam_ID", "Target_Az", "Target_El", "Target_Phi", "Target_Theta"]

  /** The columns of a group; the hardware group shows either the `HW_Addr` summary
      or the chip and port ids. */
  function GroupColumns(g: ColumnGroup, simplifiedHw: bool): seq<string>
  {
    match g
    case Hardware =>
      if simplifiedHw then ["Element_ID", "HW_Addr", "Pos_X", "Pos_Y"]
      else ["Element_ID", "HW_Chip_ID", "HW_Port_ID", "Pos_X", "Pos_Y"]
    case Theory => ["Theory_Delay_ps", "Theory_Phase_deg"]
    case Logic => ["Cal_TTD_ps", "Cal_PS_deg"]
  }

  /** The unit suffix of an IC's columns. */
  function Suffix(ic: ICConfig): string
  {
    if ic.icType == TTD then "ps" else "deg"
  }

  /** The four columns of one IC, in the order the table shows them. */
  function IcColumns(ic: ICConfig): (cols: seq<string>)
    ensures |cols| == 4
  {
    [ic.name + "_Actual_" + Suffix(ic), ic.name + "_Code_Dec", ic.name + "_Code_Hex",
     ic.name + "_Error_" + Suffix(ic)]
  }

  /** The columns of the visible groups, group after group. */
  function GroupsColumns(groups: seq<ColumnGroup>, simplifiedHw: bool): seq<string>
    decreases |groups|
  {
    if groups == [] then []
    else GroupsColumns(groups[..|groups| - 1], simplifiedHw) + GroupColumns(groups[|groups| - 1], simplifiedHw)
  }

  /** The columns of every IC, IC after IC. */
  function AllIcColumns(ics: seq<ICConfig>): (cols: seq<string>)
    ensures |cols| == 4 * |ics|
    decreases |ics|
  {
    if ics == [] then [] else AllIcColumns(ics[..|ics| - 1]) + IcColumns(ics[|ics| - 1])
  }

  /** The columns of IC `k` sit at positions 4k to 4k+3 of the IC part. */
  lemma {:induction false} AllIcColumnsAt(ics: seq<ICConfig>, k: nat)
    requires k < |ics|
    ensures AllIcColumns(ics)[4 * k..4 * k + 4] == IcColumns(ics[k])
    decreases |ics|
  {
    var init := ics[..|ics| - 1];
    if k < |ics| - 1 {
      AllIcColumnsAt(init, k);
      assert init[k] == ics[k];
      assert AllIcColumns(ics)[4 * k..4 * k + 4] == AllIcColumns(init)[4 * k..4 * k + 4];
    } else {
      assert AllIcColumns(ics)[4 * k..4 * k + 4] == IcColumns(ics[k]);
    }
  }

  /** The visible columns: none while the table is empty; otherwise the targeting
      columns, then each visible group's columns in the order the groups are
      listed, then, when the logic group is visible, four columns per IC. */
  method ActiveColumns(rowCount: nat, groups: seq<ColumnGroup>, simplifiedHw: bool, ics: seq<ICConfig>)
    returns (cols: seq<string>)
    ensures rowCount == 0 ==> cols == []
    ensures rowCount > 0 ==>
      cols == TargetingColumns + GroupsColumns(groups, simplifiedHw)
              + (if Logic in groups then AllIcColumns(ics) else [])
    ensures rowCount > 0 ==> |cols| >= 6 && cols[..6] == TargetingColumns
  {
    if rowCount == 0 {
      return [];
    }
    var baseCols := TargetingColumns;
    for i := 0 to |groups|
      invariant baseCols == TargetingColumns + GroupsColumns(groups[..i], simplifiedHw)
    {
      assert groups[..i + 1][..i] == groups[..i];
      baseCols := baseCols + GroupColumns(groups[i], simplifiedHw);
    }
    assert groups[..|groups|] == groups;
    var icCols := [];
    if Logic in groups {
      for k := 0 to |ics|
        invariant icCols == AllIcColumns(ics[..k])
      {
        assert ics[..k + 1][..k] == ics[..k];
        icCols := icCols + IcColumns(ics[k]);
      }
      assert ics[..|ics|] == ics;
    }
    cols := baseCols + icCols;
  }

  // ---------------------------------------------------------------------------
  // uniqueBeams
  // ---------------------------------------------------------------------------

  /** One entry of the beam list the 3-D view steps through. */
  datatype BeamView = BeamView(az: real, el: real, theta: real, phi: real)

  function View(r: Row): BeamView
  {
    BeamView(r.targetAz, r.targetEl, r.targetTheta, r.targetPhi)
  }

  /** What identifies a beam: its azimuth and elevation. */
  function RowBeam(r: Row): (real, real)
  {
    (r.targetAz, r.targetEl)
  }

  function ViewBeam(b: BeamView): (real, real)
  {
    (b.az, b.el)
  }

  /** The beams of `bs`, as a set. */
  function BeamSet(bs: seq<BeamView>): (s: set<(real, real)>)
    ensures forall k :: 0 <= k < |bs| ==> ViewBeam(bs[k]) in s
    ensures forall p :: p in s ==> exists k :: 0 <= k < |bs| && ViewBeam(bs[k]) == p
  {
    set k | 0 <= k < |bs| :: ViewBeam(bs[k])
  }

  lemma BeamSetAppend(bs: seq<BeamView>, b: BeamView)
    ensures BeamSet(bs + [b]) == BeamSet(bs) + {ViewBeam(b)}
  {
    var bs' := bs + [b];
    forall p | p in BeamSet(bs') ensures p in BeamSet(bs) + {ViewBeam(b)} {
      var k :| 0 <= k < |bs'| && ViewBeam(bs'[k]) == p;
      if k < |bs| {
        assert bs'[k] == bs[k];
      }
    }
    forall p | p in BeamSet(bs) ensures p in BeamSet(bs') {
      var k :| 0 <= k < |bs| && ViewBeam(bs[k]) == p;
      assert bs'[k] == bs[k];
    }
    assert ViewBeam(bs'[|bs|]) == ViewBeam(b);
  }

  /** The list of distinct beams of the rows, each taken from the row where its
      (azimuth, elevation) first occurs. */
  function DistinctBeams(rows: seq<Row>): seq<BeamView>
    decreases |rows|
  {
    if rows == [] then []
    else
      var bs := DistinctBeams(rows[..|rows| - 1]);
      var r := rows[|rows| - 1];
      if RowBeam(r) in BeamSet(bs) then bs else bs + [View(r)]
  }

  /** `uniqueBeams`: one pass over the rows with a set of the beams seen so far. */
  method UniqueBeams(rows: seq<Row>) returns (beams: seq<BeamView>)
    ensures beams == DistinctBeams(rows)
  {
    beams := [];
    if |rows| == 0 {
      return;
    }
    var seen: set<(real, real)> := {};
    for i := 0 to |rows|
      invariant beams == DistinctBeams(rows[..i])
      invariant seen == BeamSet(beams)
    {
      assert rows[..i + 1][..i] == rows[..i];
      var key := RowBeam(rows[i]);
      if key !in seen {
        BeamSetAppend(beams, View(rows[i]));
        seen := seen + {key};
        beams := beams + [View(rows[i])];
      }
    }
    assert rows[..|rows|] == rows;
  }

  /** Each beam of the rows is in the list, and nothing else is. */
  lemma {:induction false} DistinctBeamsCover(rows: seq<Row>)
    ensures BeamSet(DistinctBeams(rows)) == set i | 0 <= i < |rows| :: RowBeam(rows[i])
    decreases |rows|
  {
    if rows != [] {
      var init := rows[..|rows| - 1];
      DistinctBeamsCover(init);
      var bs := DistinctBeams(init);
      var all := set i | 0 <= i < |rows| :: RowBeam(rows[i]);
      var before := set i | 0 <= i < |init| :: RowBeam(init[i]);
      assert all == before + {RowBeam(rows[|rows| - 1])} by {
        forall p | p in all ensures p in before + {RowBeam(rows[|rows| - 1])} {
          var i :| 0 <= i < |rows| && RowBeam(rows[i]) == p;
          if i < |init| {
            assert init[i] == rows[i];
          }
        }
        forall p | p in before ensures p in all {
          var i :| 0 <= i < |init| && RowBeam(init[i]) == p;
          assert rows[i] == init[i];
        }
      }
      if RowBeam(rows[|rows| - 1]) !in BeamSet(bs) {
        BeamSetAppend(bs, View(rows[|rows| - 1]));
      }
    }
  }

  /** No beam occurs twice in `bs`. */
  predicate NoRepeats(bs: seq<BeamView>)
  {
    forall k1, k2 :: 0 <= k1 < k2 < |bs| ==> ViewBeam(bs[k1]) != ViewBeam(bs[k2])
  }

  /** No beam is listed twice. */
  lemma {:induction false} DistinctBeamsUnique(rows: seq<Row>)
    ensures NoRepeats(DistinctBeams(rows))
    decreases |rows|
  {
    if rows != [] {
      var init := rows[..|rows| - 1];
      DistinctBeamsUnique(init);
      var bs := DistinctBeams(init);
      var r := rows[|rows| - 1];
      if RowBeam(r) !in BeamSet(bs) {
        var bs' := bs + [View(r)];
        assert DistinctBeams(rows) == bs';
        forall k1, k2 | 0 <= k1 < k2 < |bs'| ensures ViewBeam(bs'[k1]) != ViewBeam(bs'[k2]) {
          assert bs'[k1] == bs[k1];
          assert ViewBeam(bs[k1]) in BeamSet(bs);
          if k2 < |bs| {
            assert bs'[k2] == bs[k2];
          } else {
            assert ViewBeam(bs'[k2]) == RowBeam(r);
          }
        }
      } else {
        assert DistinctBeams(rows) == bs;
      }
    }
  }

  /** Every listed beam is the view of the first row with its azimuth and elevation,
      and the beams come in the order of those first rows: wherever the later beam
      occurs in the rows, the earlier one has already occurred. */
  lemma {:induction false} DistinctBeamsFirstOccurrence(rows: seq<Row>, k: nat)
    requires k < |DistinctBeams(rows)|
    ensures var b := DistinctBeams(rows)[k];
      exists i :: 0 <= i < |rows| && b == View(rows[i])
        && forall j :: 0 <= j < i ==> RowBeam(rows[j]) != RowBeam(rows[i])
    decreases |rows|
  {
    var init := rows[..|rows| - 1];
    var bs := DistinctBeams(init);
    var r := rows[|rows| - 1];
    var b := DistinctBeams(rows)[k];
    if k < |bs| {
      DistinctBeamsFirstOccurrence(init, k);
      var i :| 0 <= i < |init| && bs[k] == View(init[i])
        && forall j :: 0 <= j < i ==> RowBeam(init[j]) != RowBeam(init[i]);
      assert rows[i] == init[i];
      forall j | 0 <= j < i ensures RowBeam(rows[j]) != RowBeam(rows[i]) {
        assert rows[j] == init[j];
      }
      assert b == bs[k];
    } else {
      assert RowBeam(r) !in BeamSet(bs) && b == View(r);
      DistinctBeamsCover(init);
      forall j | 0 <= j < |rows| - 1 ensures RowBeam(rows[j]) != RowBeam(r) {
        assert RowBeam(init[j]) in BeamSet(bs);
      }
    }
  }

  lemma {:induction false} DistinctBeamsOrder(rows: seq<Row>, k1: nat, k2: nat, i2: nat)
    requires k1 < k2 < |DistinctBeams(rows)| && i2 < |rows|
    requires RowBeam(rows[i2]) == ViewBeam(DistinctBeams(rows)[k2])
    ensures exists i1 :: 0 <= i1 < i2 && RowBeam(rows[i1]) == ViewBeam(DistinctBeams(rows)[k1])
    decreases |rows|
  {
    var init := rows[..|rows| - 1];
    var bs := DistinctBeams(init);
    DistinctBeamsCover(init);
    if k2 < |bs| {
      assert DistinctBeams(rows)[k1] == bs[k1] && DistinctBeams(rows)[k2] == bs[k2];
      if i2 == |rows| - 1 {
        var j :| 0 <= j < |init| && RowBeam(init[j]) == ViewBeam(bs[k2]);
        DistinctBeamsOrder(init, k1, k2, j);
        var i1 :| 0 <= i1 < j && RowBeam(init[i1]) == ViewBeam(bs[k1]);
        assert rows[i1] == init[i1];
      } else {
        assert init[i2] == rows[i2];
        DistinctBeamsOrder(init, k1, k2, i2);
        var i1 :| 0 <= i1 < i2 && RowBeam(init[i1]) == ViewBeam(bs[k1]);
        assert rows[i1] == init[i1];
      }
    } else {
      assert DistinctBeams(rows)[k1] == bs[k1];
      assert ViewBeam(bs[k1]) in BeamSet(bs);
      var j :| 0 <= j < |init| && RowBeam(init[j]) == ViewBeam(bs[k1]);
      assert rows[j] == init[j];
      var r := rows[|rows| - 1];
      assert RowBeam(r) == ViewBeam(DistinctBeams(rows)[k2]) && RowBeam(r) !in BeamSet(bs);
      if i2 < |rows| - 1 {
        assert false;
      }
    }
  }

  // ---------------------------------------------------------------------------
  // The mapping template
  // ---------------------------------------------------------------------------

  const TemplateHeader: string := "X_Idx,Y_Idx,Chip_ID,Port_ID,Element_ID"

  /** One template line: position, chip, port and element id, comma-separated. */
  function TemplateLine(x: nat, y: nat, h: HardwareAddress): string
  {
    Join([IntToDecimal(x), IntToDecimal(y), IntToDecimal(h.chipId), IntToDecimal(h.portId),
          IntToDecimal(h.elementId)], ',')
  }

  /** The template line at position `k` of the template: the element the row-major
      walk visits `k`-th, with the uniform wiring of its linear index. */
  function TemplateAt(nx: nat, ny: nat, topo: HardwareTopology, k: nat): string
    requires nx > 0 && topo.elementsPerChip >= 1
  {
    var p := GridPosition(RowMajor, nx, ny, k);
    var l := LinearIndex(topo.mappingOrder, nx, ny, p.0, p.1);
    TemplateLine(p.0, p.1, UniformAddress(l, topo.elementsPerChip))
  }

  /** `rows` are the first `|rows|` lines of the template. */
  predicate TemplatePrefix(nx: nat, ny: nat, topo: HardwareTopology, rows: seq<string>)
    requires topo.elementsPerChip >= 1
  {
    nx > 0 ==> forall k :: 0 <= k < |rows| ==> rows[k] == TemplateAt(nx, ny, topo, k)
  }

  /** The MAPPING branch of `downloadTemplate`: one line per element, y outer and
      x inner, each with the chip and port of the uniform wiring (a custom order
      numbers along the rows). */
  method MappingTemplate(nx: nat, ny: nat, topo: HardwareTopology) returns (header: string, rows: seq<string>)
    requires topo.elementsPerChip >= 1
    ensures header == TemplateHeader
    ensures |rows| == nx * ny
    ensures forall x: nat, y: nat :: x < nx && y < ny ==>
      var l := LinearIndex(topo.mappingOrder, nx, ny, x, y);
      y * nx + x < |rows| && rows[y * nx + x] == TemplateLine(x, y, UniformAddress(l, topo.elementsPerChip))
  {
    header := TemplateHeader;
    rows := [];
    for y := 0 to ny
      invariant |rows| == y * nx
      invariant TemplatePrefix(nx, ny, topo, rows)
    {
      rows := TemplateRow(nx, ny, topo, y, rows);
      assert (y + 1) * nx == y * nx + nx;
    }
    TemplateGrid(nx, ny, topo, rows);
  }

  /** The inner loop of the template: the lines of grid row `y`, x ascending. */
  method TemplateRow(nx: nat, ny: nat, topo: HardwareTopology, y: nat, rows: seq<string>) returns (rows': seq<string>)
    requires y < ny && topo.elementsPerChip >= 1
    requires |rows| == y * nx && TemplatePrefix(nx, ny, topo, rows)
    ensures |rows'| == y * nx + nx && TemplatePrefix(nx, ny, topo, rows')
  {
    rows' := rows;
    for x := 0 to nx
      invariant |rows'| == y * nx + x
      invariant TemplatePrefix(nx, ny, topo, rows')
    {
      var l := LinearIndex(topo.mappingOrder, nx, ny, x, y);
      var line := TemplateLine(x, y, HardwareAddress(l / topo.elementsPerChip, l % topo.elementsPerChip, l));
      TemplateNext(nx, ny, topo, x, y, l, rows', line);
      rows' := rows' + [line];
    }
  }

  lemma TemplateStep(nx: nat, ny: nat, topo: HardwareTopology, x: nat, y: nat, l: int, k: nat, line: string)
    requires x < nx && y < ny && topo.elementsPerChip >= 1 && k == y * nx + x
    requires l == LinearIndex(topo.mappingOrder, nx, ny, x, y)
    requires line == TemplateLine(x, y, HardwareAddress(l / topo.elementsPerChip, l % topo.elementsPerChip, l))
    ensures line == TemplateAt(nx, ny, topo, k)
  {
    GridPositionOfLinearIndex(RowMajor, nx, ny, x, y);
    assert LinearIndex(RowMajor, nx, ny, x, y) == k;
    assert GridPosition(RowMajor, nx, ny, k) == (x, y);
    LinearIndexInRange(topo.mappingOrder, nx, ny, x, y);
    assert UniformAddress(l, topo.elementsPerChip)
        == HardwareAddress(l / topo.elementsPerChip, l % topo.elementsPerChip, l);
  }

  /** Appending the line of element (x, y) to the lines before it extends the template. */
  lemma TemplateNext(nx: nat, ny: nat, topo: HardwareTopology, x: nat, y: nat, l: int, rows: seq<string>, line: string)
    requires x < nx && y < ny && topo.elementsPerChip >= 1
    requires |rows| == y * nx + x && TemplatePrefix(nx, ny, topo, rows)
    requires l == LinearIndex(topo.mappingOrder, nx, ny, x, y)
    requires line == TemplateLine(x, y, HardwareAddress(l / topo.elementsPerChip, l % topo.elementsPerChip, l))
    ensures TemplatePrefix(nx, ny, topo, rows + [line])
  {
    TemplateStep(nx, ny, topo, x, y, l, |rows|, line);
    TemplateAppend(nx, ny, topo, rows, line);
  }

  lemma TemplateAppend(nx: nat, ny: nat, topo: HardwareTopology, rows: seq<string>, line: string)
    requires nx > 0 && topo.elementsPerChip >= 1
    requires TemplatePrefix(nx, ny, topo, rows) && line == TemplateAt(nx, ny, topo, |rows|)
    ensures TemplatePrefix(nx, ny, topo, rows + [line])
  {
    var rows' := rows + [line];
    forall k | 0 <= k < |rows'| ensures rows'[k] == TemplateAt(nx, ny, topo, k) {
      if k < |rows| {
        assert rows'[k] == rows[k];
      }
    }
  }

  /** The template line of element (x, y) is the line the row-major walk gives it. */
  lemma TemplateGrid(nx: nat, ny: nat, topo: HardwareTopology, rows: seq<string>)
    requires topo.elementsPerChip >= 1
    requires |rows| == nx * ny && TemplatePrefix(nx, ny, topo, rows)
    ensures forall x: nat, y: nat :: x < nx && y < ny ==>
      var l := LinearIndex(topo.mappingOrder, nx, ny, x, y);
      y * nx + x < |rows| && rows[y * nx + x] == TemplateLine(x, y, UniformAddress(l, topo.elementsPerChip))
  {
    forall x: nat, y: nat | x < nx && y < ny
      ensures y * nx + x < |rows|
      ensures rows[y * nx + x] == TemplateLine(x, y, UniformAddress(LinearIndex(topo.mappingOrder, nx, ny, x, y), topo.elementsPerChip))
    {
      LinearIndexInRange(RowMajor, nx, ny, x, y);
      GridPositionOfLinearIndex(RowMajor, nx, ny, x, y);
    }
  }

  /** The fields of a template line, as the mapping parser splits and trims them. */
  lemma TemplateLineColumns(x: nat, y: nat, h: HardwareAddress)
    ensures Ingestion.Columns(TemplateLine(x, y, h))
         == [IntToDecimal(x), IntToDecimal(y), IntToDecimal(h.chipId), IntToDecimal(h.portId), IntToDecimal(h.elementId)]
  {
    var parts := [IntToDecimal(x), IntToDecimal(y), IntToDecimal(h.chipId), IntToDecimal(h.portId),
                  IntToDecimal(h.elementId)];
    forall i | 0 <= i < |parts| ensures ',' !in parts[i] && Trim(parts[i]) == parts[i] {
      NoSeparator(parts[i]);
    }
    SplitJoin(parts, ',');
  }

  lemma IntAtDecimal(cols: seq<string>, i: nat, n: int)
    requires i < |cols| && cols[i] == IntToDecimal(n)
    ensures Ingestion.IntAt(cols, i) == Some(n)
  {
    ParseIntRoundTrip(n);
  }

  /** A template line, read back with the template's header (x, y, chip, port and
      element id in columns 0 to 4), gives exactly the address it was written with. */
  lemma TemplateLineParses(x: nat, y: nat, h: HardwareAddress)
    ensures Ingestion.MappingEntry(TemplateLine(x, y, h), Ingestion.MapColumns(0, 1, 2, 3, 4))
         == Some(((x as int, y as int), PortMapping(h.chipId, h.portId, Some(h.elementId))))
  {
    var cols := Ingestion.Columns(TemplateLine(x, y, h));
    TemplateLineColumns(x, y, h);
    assert |cols| == 5 && cols[0] == IntToDecimal(x) && cols[1] == IntToDecimal(y);
    assert cols[2] == IntToDecimal(h.chipId) && cols[3] == IntToDecimal(h.portId);
    assert cols[4] == IntToDecimal(h.elementId);
    DecimalFieldsParse(x, y, h, cols);
  }

  lemma DecimalFieldsParse(x: int, y: int, h: HardwareAddress, cols: seq<string>)
    requires |cols| == 5 && cols[0] == IntToDecimal(x) && cols[1] == IntToDecimal(y)
    requires cols[2] == IntToDecimal(h.chipId) && cols[3] == IntToDecimal(h.portId)
    requires cols[4] == IntToDecimal(h.elementId)
    ensures Ingestion.MappingFields(cols, Ingestion.MapColumns(0, 1, 2, 3, 4))
         == Some(((x, y), PortMapping(h.chipId, h.portId, Some(h.elementId))))
  {
    IntAtDecimal(cols, 0, x);
    IntAtDecimal(cols, 1, y);
    IntAtDecimal(cols, 2, h.chipId);
    IntAtDecimal(cols, 3, h.portId);
    IntAtDecimal(cols, 4, h.elementId);
    FieldsRead(cols, x, y, h);
  }

  /** Five fields that read as numbers make the entry those numbers name. */
  lemma FieldsRead(cols: seq<string>, x: int, y: int, h: HardwareAddress)
    requires |cols| == 5
    requires Ingestion.IntAt(cols, 0) == Some(x) && Ingestion.IntAt(cols, 1) == Some(y)
    requires Ingestion.IntAt(cols, 2) == Some(h.chipId) && Ingestion.IntAt(cols, 3) == Some(h.portId)
    requires Ingestion.IntAt(cols, 4) == Some(h.elementId)
    ensures Ingestion.MappingFields(cols, Ingestion.MapColumns(0, 1, 2, 3, 4))
         == Some(((x, y), PortMapping(h.chipId, h.portId, Some(h.elementId))))
  {
  }

  /** A decimal numeral has no comma, no line break and no surrounding white space. */
  lemma NoSeparator(s: string)
    requires exists n :: s == IntToDecimal(n)
    ensures ',' !in s && '\n' !in s && Trim(s) == s
  {
    var n :| s == IntToDecimal(n);
    var d := if n < 0 then NatToDecimal(-n) else NatToDecimal(n);
    assert forall i :: 0 <= i < |d| ==> IsDigit(d[i]);
    assert forall i :: 0 <= i < |s| ==> s[i] == '-' || IsDigit(s[i]);
    TrimIdentity(s);
  }

  /** The file the template is saved as: the header, then the rows, one per line. */
  function TemplateText(header: string, rows: seq<string>): string
  {
    Join([header] + rows, '\n')
  }

  /** The template's header puts x, y, chip, port and element id in columns 0 to 4
      for the mapping parser. */
  lemma TemplateHeaderColumns()
    ensures Ingestion.MappingColumns(TemplateHeader) == Ingestion.MapColumns(0, 1, 2, 3, 4)
  {
    var names, lowered := TemplateHeaderCells();
    SynonymsLowerCase();
    ColumnFound(names, lowered, Ingestion.XNames, 0);
    ColumnFound(names, lowered, Ingestion.YNames, 1);
    ColumnFound(names, lowered, Ingestion.ChipNames, 2);
    ColumnFound(names, lowered, Ingestion.PortNames, 3);
    ColumnFound(names, lowered, Ingestion.ElementNames, 4);
    HeaderColumnsOf(TemplateHeader, names);
  }

  /** The cells of the template's header as the parser normalises them, and which
      synonym list each belongs to. */
  lemma TemplateHeaderCells() returns (names: seq<string>, lowered: seq<string>)
    ensures Split(TemplateHeader, ',') == names
    ensures |names| == |lowered| == 5
    ensures forall k :: 0 <= k < |names| ==> Ingestion.Normalise(names[k]) == lowered[k]
    ensures lowered[0] in Ingestion.XNames
    ensures lowered[1] in Ingestion.YNames && lowered[0] !in Ingestion.YNames
    ensures lowered[2] in Ingestion.ChipNames && forall t :: t in lowered[..2] ==> t !in Ingestion.ChipNames
    ensures lowered[3] in Ingestion.PortNames && forall t :: t in lowered[..3] ==> t !in Ingestion.PortNames
    ensures lowered[4] in Ingestion.ElementNames && forall t :: t in lowered[..4] ==> t !in Ingestion.ElementNames
  {
    names := TemplateHeaderNames();
    lowered := TemplateHeaderNormalised(names);
    SynonymMembership(lowered);
  }

  /** Which synonym list each normalised header cell of the template belongs to. */
  lemma SynonymMembership(lowered: seq<string>)
    requires lowered == ["x_idx", "y_idx", "chip_id", "port_id", "element_id"]
    ensures lowered[0] in Ingestion.XNames
    ensures lowered[1] in Ingestion.YNames && lowered[0] !in Ingestion.YNames
    ensures lowered[2] in Ingestion.ChipNames && forall t :: t in lowered[..2] ==> t !in Ingestion.ChipNames
    ensures lowered[3] in Ingestion.PortNames && forall t :: t in lowered[..3] ==> t !in Ingestion.PortNames
    ensures lowered[4] in Ingestion.ElementNames && forall t :: t in lowered[..4] ==> t !in Ingestion.ElementNames
  {
  }

  /** The columns the mapping parser takes from a header row with cells `hs`. */
  lemma HeaderColumnsOf(header: string, hs: seq<string>)
    requires Split(header, ',') == hs
    ensures Ingestion.MappingColumns(header)
         == Ingestion.MapColumns(Ingestion.HeaderIndex(hs, Ingestion.XNames), Ingestion.HeaderIndex(hs, Ingestion.YNames),
                                 Ingestion.HeaderIndex(hs, Ingestion.ChipNames), Ingestion.HeaderIndex(hs, Ingestion.PortNames),
                                 Ingestion.HeaderIndex(hs, Ingestion.ElementNames))
  {
  }

  /** The header cells of the template, trimmed and lower-cased. */
  lemma TemplateHeaderNormalised(names: seq<string>) returns (lowered: seq<string>)
    requires names == ["X_Idx", "Y_Idx", "Chip_ID", "Port_ID", "Element_ID"]
    ensures lowered == ["x_idx", "y_idx", "chip_id", "port_id", "element_id"]
    ensures |lowered| == |names|
    ensures forall k :: 0 <= k < |names| ==> Ingestion.Normalise(names[k]) == lowered[k]
  {
    lowered := ["x_idx", "y_idx", "chip_id", "port_id", "element_id"];
    forall k | 0 <= k < |names| ensures Ingestion.Normalise(names[k]) == lowered[k] {
      NormalisedName(names[k], lowered[k]);
    }
  }

  /** The parser's synonyms are written in lower case already. */
  lemma SynonymsLowerCase()
    ensures forall j :: 0 <= j < |Ingestion.XNames| ==> ToLower(Ingestion.XNames[j]) == Ingestion.XNames[j]
    ensures forall j :: 0 <= j < |Ingestion.YNames| ==> ToLower(Ingestion.YNames[j]) == Ingestion.YNames[j]
    ensures forall j :: 0 <= j < |Ingestion.ChipNames| ==> ToLower(Ingestion.ChipNames[j]) == Ingestion.ChipNames[j]
    ensures forall j :: 0 <= j < |Ingestion.PortNames| ==> ToLower(Ingestion.PortNames[j]) == Ingestion.PortNames[j]
    ensures forall j :: 0 <= j < |Ingestion.ElementNames| ==> ToLower(Ingestion.ElementNames[j]) == Ingestion.ElementNames[j]
  {
  }

  /** The header cells of the template. */
  lemma TemplateHeaderNames() returns (names: seq<string>)
    ensures names == ["X_Idx", "Y_Idx", "Chip_ID", "Port_ID", "Element_ID"]
    ensures Split(TemplateHeader, ',') == names
  {
    names := ["X_Idx", "Y_Idx", "Chip_ID", "Port_ID", "Element_ID"];
    assert TemplateHeader == Join(names, ',');
    SplitJoin(names, ',');
  }

  /** A header cell without surrounding white space, lower-cased. */
  lemma NormalisedName(h: string, t: string)
    requires |h| == |t| && |h| > 0 && h[0] != ' ' && h[|h| - 1] != ' '
    requires !IsWhitespace(h[0]) && !IsWhitespace(h[|h| - 1])
    requires forall i :: 0 <= i < |h| ==> LowerChar(h[i]) == t[i]
    ensures Ingestion.Normalise(h) == t
  {
    TrimIdentity(h);
  }

  /** The column found for lower-case synonyms is the first header that, normalised,
      is one of them. */
  lemma ColumnFound(headers: seq<string>, normalised: seq<string>, targets: seq<string>, i: nat)
    requires |normalised| == |headers| && i < |headers|
    requires forall k :: 0 <= k < |headers| ==> Ingestion.Normalise(headers[k]) == normalised[k]
    requires forall j :: 0 <= j < |targets| ==> ToLower(targets[j]) == targets[j]
    requires normalised[i] in targets
    requires forall t :: t in normalised[..i] ==> t !in targets
    ensures Ingestion.HeaderIndex(headers, targets) == i
  {
    var j :| 0 <= j < |targets| && targets[j] == normalised[i];
    assert ToLower(targets[j]) == Ingestion.Normalise(headers[i]);
    forall k | 0 <= k < i ensures !Ingestion.Named(Ingestion.Normalise(headers[k]), targets) {
      assert normalised[k] in normalised[..i];
    }
    Ingestion.HeaderIndexAt(headers, targets, i);
  }

  /** The template text splits into its header and its rows. */
  lemma TemplateLines(nx: nat, ny: nat, topo: HardwareTopology, rows: seq<string>)
    requires topo.elementsPerChip >= 1
    requires |rows| == nx * ny
    requires forall x: nat, y: nat :: x < nx && y < ny ==>
      var l := LinearIndex(topo.mappingOrder, nx, ny, x, y);
      y * nx + x < |rows| && rows[y * nx + x] == TemplateLine(x, y, UniformAddress(l, topo.elementsPerChip))
    ensures Split(TemplateText(TemplateHeader, rows), '\n') == [TemplateHeader] + rows
  {
    var parts := [TemplateHeader] + rows;
    forall j | 0 <= j < |parts| ensures '\n' !in parts[j] {
      if j == 0 {
        HeaderUnbroken();
      } else {
        var p, h := TemplateLineAt(nx, ny, topo, rows, j - 1);
        assert parts[j] == rows[j - 1];
        TemplateLineUnbroken(p.0, p.1, h);
      }
    }
    SplitJoin(parts, '\n');
  }

  lemma HeaderUnbroken()
    ensures '\n' !in TemplateHeader
  {
  }

  /** A template line is a single line. */
  lemma TemplateLineUnbroken(x: nat, y: nat, h: HardwareAddress)
    ensures '\n' !in TemplateLine(x, y, h)
  {
    var fields := [IntToDecimal(x), IntToDecimal(y), IntToDecimal(h.chipId), IntToDecimal(h.portId),
                   IntToDecimal(h.elementId)];
    forall i | 0 <= i < |fields| ensures '\n' !in fields[i] {
      NoSeparator(fields[i]);
    }
    JoinAvoids(fields, ',', '\n');
  }

  /** Line `j` of the template is the line of the element the row-major walk
      visits `j`-th. */
  lemma TemplateLineAt(nx: nat, ny: nat, topo: HardwareTopology, rows: seq<string>, j: nat)
    returns (p: (nat, nat), h: HardwareAddress)
    requires topo.elementsPerChip >= 1
    requires |rows| == nx * ny
    requires forall x: nat, y: nat :: x < nx && y < ny ==>
      var l := LinearIndex(topo.mappingOrder, nx, ny, x, y);
      y * nx + x < |rows| && rows[y * nx + x] == TemplateLine(x, y, UniformAddress(l, topo.elementsPerChip))
    requires j < |rows|
    ensures p == GridPosition(RowMajor, nx, ny, j) && p.0 < nx && p.1 < ny && p.1 * nx + p.0 == j
    ensures h == UniformAddress(LinearIndex(topo.mappingOrder, nx, ny, p.0, p.1), topo.elementsPerChip)
    ensures rows[j] == TemplateLine(p.0, p.1, h)
  {
    LinearIndexOfGridPosition(RowMajor, nx, ny, j);
    p := GridPosition(RowMajor, nx, ny, j);
    h := UniformAddress(LinearIndex(topo.mappingOrder, nx, ny, p.0, p.1), topo.elementsPerChip);
  }

  /** The mapping parser reads line `j` of the template as the address of the
      element the row-major walk visits `j`-th. */
  lemma TemplateEntry(nx: nat, ny: nat, topo: HardwareTopology, rows: seq<string>, j: nat)
    returns (p: (nat, nat), h: HardwareAddress)
    requires topo.elementsPerChip >= 1
    requires |rows| == nx * ny
    requires forall x: nat, y: nat :: x < nx && y < ny ==>
      var l := LinearIndex(topo.mappingOrder, nx, ny, x, y);
      y * nx + x < |rows| && rows[y * nx + x] == TemplateLine(x, y, UniformAddress(l, topo.elementsPerChip))
    requires j < |rows|
    ensures p == GridPosition(RowMajor, nx, ny, j) && p.0 < nx && p.1 < ny && p.1 * nx + p.0 == j
    ensures h == UniformAddress(LinearIndex(topo.mappingOrder, nx, ny, p.0, p.1), topo.elementsPerChip)
    ensures Ingestion.MappingEntries(rows, Ingestion.MapColumns(0, 1, 2, 3, 4))[j]
         == Some(((p.0 as int, p.1 as int), PortMapping(h.chipId, h.portId, Some(h.elementId))))
  {
    p, h := TemplateLineAt(nx, ny, topo, rows, j);
    TemplateLineParses(p.0, p.1, h);
  }

  /** Saving the template and reading it back through the mapping parser gives each
      element of the grid the chip, port and element id the template wrote for it. */
  lemma TemplateReadsBack(nx: nat, ny: nat, topo: HardwareTopology, rows: seq<string>, x: nat, y: nat)
    requires topo.elementsPerChip >= 1
    requires |rows| == nx * ny
    requires forall x: nat, y: nat :: x < nx && y < ny ==>
      var l := LinearIndex(topo.mappingOrder, nx, ny, x, y);
      y * nx + x < |rows| && rows[y * nx + x] == TemplateLine(x, y, UniformAddress(l, topo.elementsPerChip))
    requires x < nx && y < ny
    ensures var m := Ingestion.MappingOf(TemplateText(TemplateHeader, rows));
      var h := UniformAddress(LinearIndex(topo.mappingOrder, nx, ny, x, y), topo.elementsPerChip);
      (x as int, y as int) in m && m[(x as int, y as int)] == PortMapping(h.chipId, h.portId, Some(h.elementId))
  {
    var es := TemplateRead(nx, ny, topo, rows);
    var i := TemplateLastWrite(nx, ny, topo, rows, x, y);
    Ingestion.CollectLastWins(es, i);
    var key := (x as int, y as int);
    assert es[i].value.0 == key;
  }

  /** The template line of element (x, y) is the last that writes its key. */
  lemma TemplateLastWrite(nx: nat, ny: nat, topo: HardwareTopology, rows: seq<string>, x: nat, y: nat)
    returns (i: nat)
    requires topo.elementsPerChip >= 1
    requires |rows| == nx * ny
    requires forall x: nat, y: nat :: x < nx && y < ny ==>
      var l := LinearIndex(topo.mappingOrder, nx, ny, x, y);
      y * nx + x < |rows| && rows[y * nx + x] == TemplateLine(x, y, UniformAddress(l, topo.elementsPerChip))
    requires x < nx && y < ny
    ensures var es := Ingestion.MappingEntries(rows, Ingestion.MapColumns(0, 1, 2, 3, 4));
      var h := UniformAddress(LinearIndex(topo.mappingOrder, nx, ny, x, y), topo.elementsPerChip);
      && i < |es|
      && es[i] == Some(((x as int, y as int), PortMapping(h.chipId, h.portId, Some(h.elementId))))
      && forall j :: i < j < |es| && es[j].Some? ==> es[j].value.0 != (x as int, y as int)
  {
    var es := Ingestion.MappingEntries(rows, Ingestion.MapColumns(0, 1, 2, 3, 4));
    i := LinearIndex(RowMajor, nx, ny, x, y);
    LinearIndexInRange(RowMajor, nx, ny, x, y);
    GridPositionOfLinearIndex(RowMajor, nx, ny, x, y);
    var p, h := TemplateEntry(nx, ny, topo, rows, i);
    forall j | i < j < |es| && es[j].Some? ensures es[j].value.0 != (x as int, y as int) {
      var q, g := TemplateEntry(nx, ny, topo, rows, j);
    }
  }

  /** The mapping read back from the template has exactly the grid's positions as keys. */
  lemma TemplateKeys(nx: nat, ny: nat, topo: HardwareTopology, rows: seq<string>, key: ElementKey)
    requires topo.elementsPerChip >= 1
    requires |rows| == nx * ny
    requires forall x: nat, y: nat :: x < nx && y < ny ==>
      var l := LinearIndex(topo.mappingOrder, nx, ny, x, y);
      y * nx + x < |rows| && rows[y * nx + x] == TemplateLine(x, y, UniformAddress(l, topo.elementsPerChip))
    ensures key in Ingestion.MappingOf(TemplateText(TemplateHeader, rows))
        <==> 0 <= key.0 < nx && 0 <= key.1 < ny
  {
    var es := TemplateRead(nx, ny, topo, rows);
    Ingestion.CollectKeys(es, key);
    if key in Ingestion.MappingOf(TemplateText(TemplateHeader, rows)) {
      var j :| 0 <= j < |es| && es[j].Some? && es[j].value.0 == key;
      var p, h := TemplateEntry(nx, ny, topo, rows, j);
    }
    if 0 <= key.0 < nx && 0 <= key.1 < ny {
      TemplateReadsBack(nx, ny, topo, rows, key.0, key.1);
    }
  }

  /** The mapping read back from the template is what its rows write, in order. */
  lemma TemplateRead(nx: nat, ny: nat, topo: HardwareTopology, rows: seq<string>)
    returns (es: seq<Option<(ElementKey, PortMapping)>>)
    requires topo.elementsPerChip >= 1
    requires |rows| == nx * ny
    requires forall x: nat, y: nat :: x < nx && y < ny ==>
      var l := LinearIndex(topo.mappingOrder, nx, ny, x, y);
      y * nx + x < |rows| && rows[y * nx + x] == TemplateLine(x, y, UniformAddress(l, topo.elementsPerChip))
    ensures es == Ingestion.MappingEntries(rows, Ingestion.MapColumns(0, 1, 2, 3, 4))
    ensures Ingestion.MappingOf(TemplateText(TemplateHeader, rows)) == Ingestion.Collect(es)
  {
    es := Ingestion.MappingEntries(rows, Ingestion.MapColumns(0, 1, 2, 3, 4));
    TemplateLines(nx, ny, topo, rows);
    TemplateHeaderColumns();
    var lines := [TemplateHeader] + rows;
    assert lines[1..] == rows;
    if |rows| == 0 {
      Ingestion.CollectNothing(es);
    }
  }

  // ---------------------------------------------------------------------------
  // The HW_Addr cell
  // ---------------------------------------------------------------------------

  /** The element id as the `HW_Addr` cell shows it: at least two characters,
      padded with leading zeros. */
  function ElementLabel(elementId: int): (s: string)
    ensures |s| >= 2
    ensures 0 <= elementId < 10 ==> s == ['0'] + IntToDecimal(elementId)
    ensures elementId >= 10 || elementId < 0 ==> s == IntToDecimal(elementId)
  {
    PadStart(IntToDecimal(elementId), 2, '0')
  }

  /** The `HW_Addr` cell: "[E<id>] C<chip>:P<port>". */
  function HwAddr(r: Row): string
  {
    Cell(ElementLabel(r.elementId), IntToDecimal(r.chipId), IntToDecimal(r.portId))
  }

  /** The cell's text around the element label, the chip id and the port id. */
  function Cell(lab: string, chip: string, port: string): string
  {
    "[E" + lab + "] C" + chip + ":P" + port
  }

  /** Where each piece of a cell starts and ends. */
  lemma CellLayout(lab: string, chip: string, port: string)
    ensures Cell(lab, chip, port)[..2] == "[E"
    ensures Cell(lab, chip, port)[2..] == lab + ("] C" + chip + ":P" + port)
    ensures Cell(lab, chip, port)[|lab| + 2..|lab| + 5] == "] C"
    ensures Cell(lab, chip, port)[|lab| + 5..] == chip + (":P" + port)
    ensures Cell(lab, chip, port)[|lab| + |chip| + 5..|lab| + |chip| + 7] == ":P"
    ensures Cell(lab, chip, port)[|lab| + |chip| + 7..] == port
  {
    var l := |lab|;
    var c := |chip|;
    Pieces("[E", lab, "] C", chip, ":P", port, 2, l + 2, l + 5, l + c + 5, l + c + 7);
  }

  /** The zero padding does not change the number: `parseInt` reads the id back from
      the label, also when the label is followed by text that is not a digit. */
  lemma ElementLabelReadsBack(elementId: int, rest: string)
    requires rest == [] || (!IsDigit(rest[0]) && rest[0] != 'x' && rest[0] != 'X')
    ensures ParseInt(ElementLabel(elementId) + rest) == Some(elementId)
  {
    if 0 <= elementId < 10 {
      var lab := ElementLabel(elementId);
      assert lab == ['0', DigitChar(elementId)];
      PaddedDigitBefore(lab, rest, elementId);
    } else {
      ParseIntBefore(elementId, rest);
    }
  }

  /** The layout of the `HW_Addr` cell: "[E", the element label, "] C", the chip
      id, ":P" and the port id, each separator found after the pieces before it. */
  lemma HwAddrLayout(r: Row)
    ensures HwAddr(r)[..2] == "[E"
    ensures HwAddr(r)[|ElementLabel(r.elementId)| + 2..|ElementLabel(r.elementId)| + 5] == "] C"
    ensures HwAddr(r)[|ElementLabel(r.elementId)| + |IntToDecimal(r.chipId)| + 5..
                      |ElementLabel(r.elementId)| + |IntToDecimal(r.chipId)| + 7] == ":P"
    ensures HwAddr(r)[|ElementLabel(r.elementId)| + |IntToDecimal(r.chipId)| + 7..] == IntToDecimal(r.portId)
  {
    CellLayout(ElementLabel(r.elementId), IntToDecimal(r.chipId), IntToDecimal(r.portId));
  }

  /** `parseInt` reads the element id back from the cell after "[E". */
  lemma HwAddrElement(r: Row)
    ensures ParseInt(HwAddr(r)[2..]) == Some(r.elementId)
  {
    var chip := IntToDecimal(r.chipId);
    var port := IntToDecimal(r.portId);
    CellLayout(ElementLabel(r.elementId), chip, port);
    ElementLabelReadsBack(r.elementId, "] C" + chip + ":P" + port);
  }

  /** `parseInt` reads the chip id back from the cell after "] C". */
  lemma HwAddrChip(r: Row)
    ensures ParseInt(HwAddr(r)[|ElementLabel(r.elementId)| + 5..]) == Some(r.chipId)
  {
    var port := IntToDecimal(r.portId);
    CellLayout(ElementLabel(r.elementId), IntToDecimal(r.chipId), port);
    ParseIntBefore(r.chipId, ":P" + port);
  }

  /** `parseInt` reads the port id back from the cell after ":P". */
  lemma HwAddrPort(r: Row)
    ensures ParseInt(HwAddr(r)[|ElementLabel(r.elementId)| + |IntToDecimal(r.chipId)| + 7..]) == Some(r.portId)
  {
    CellLayout(ElementLabel(r.elementId), IntToDecimal(r.chipId), IntToDecimal(r.portId));
    ParseIntRoundTrip(r.portId);
  }

  /** The rows of the preview table: the generator's rows, each with its `HW_Addr`. */
  function WithHwAddr(rows: seq<Row>): (r: seq<Row>)
    ensures |r| == |rows|
    ensures forall i :: 0 <= i < |rows| ==> r[i].hwAddr == Some(HwAddr(rows[i]))
    ensures forall i :: 0 <= i < |rows| ==> r[i].(hwAddr := rows[i].hwAddr) == rows[i]
  {
    seq(|rows|, i requires 0 <= i < |rows| => rows[i].(hwAddr := Some(HwAddr(rows[i]))))
  }
}
