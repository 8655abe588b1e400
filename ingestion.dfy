/** The text side of the calibration and mapping uploads (services/physics.ts:13-20,
    231-286): the file is split into lines and each line into comma-separated
    fields (no quoting), the columns are found by header synonyms, and every data
    line that yields numbers for the required columns writes one entry of the
    map, later lines overwriting earlier ones. Reading the file itself is I/O and
    is left to the caller: the parsers take its text. */
module Ingestion {
  import opened Types
  import opened Text

  // ---------------------------------------------------------------------------
  // Header lookup
  // ---------------------------------------------------------------------------

  const XNames: seq<string> := ["x_idx", "x", "pos_x"]
  const YNames: seq<string> := ["y_idx", "y", "pos_y"]
  const CalNames: seq<string> := ["cal_delay_ps", "cal_phase_deg", "value", "cal"]
  const ChipNames: seq<string> := ["chip_id", "chip", "hw_chip_id"]
  const PortNames: seq<string> := ["port_id", "port", "hw_port_id"]
  const ElementNames: seq<string> := ["element_id", "id", "ant_idx"]

  /** A header cell as it is compared: trimmed and lower-cased. */
  function Normalise(h: string): string
  {
    ToLower(Trim(h))
  }

  /** `t` equals one of the synonyms `targets`, compared in lower case. */
  predicate Named(t: string, targets: seq<string>)
  {
    exists j :: 0 <= j < |targets| && ToLower(targets[j]) == t
  }

  /** Which headers, trimmed and lower-cased, are one of the synonyms. */
  function Hits(headers: seq<string>, targets: seq<string>): (hits: seq<bool>)
    ensures |hits| == |headers|
  {
    seq(|headers|, k requires 0 <= k < |headers| => Named(Normalise(headers[k]), targets))
  }

  /** The position of the first `true`, or -1 (see FirstTrueIsFirst). */
  function FirstTrue(bs: seq<bool>): (i: int)
    ensures -1 <= i < |bs|
    decreases |bs|
  {
    if bs == [] then -1
    else
      var i := FirstTrue(bs[..|bs| - 1]);
      if i >= 0 then i else if bs[|bs| - 1] then |bs| - 1 else -1
  }

  lemma {:induction false} FirstTrueIsFirst(bs: seq<bool>)
    ensures var i := FirstTrue(bs);
      (i >= 0 ==> bs[i]) && forall k :: 0 <= k < |bs| && (i == -1 || k < i) ==> !bs[k]
    decreases |bs|
  {
    if bs != [] {
      var init := bs[..|bs| - 1];
      FirstTrueIsFirst(init);
      assert forall k :: 0 <= k < |init| ==> init[k] == bs[k];
    }
  }

  /** The column a header row gives to a field: the first header that, trimmed and
      lower-cased, is one of the synonyms; -1 when there is none. */
  function HeaderIndex(headers: seq<string>, targets: seq<string>): (i: int)
    ensures -1 <= i < |headers|
  {
    FirstTrue(Hits(headers, targets))
  }

  /** The header found is named by a synonym and no header before it is; -1 means
      no header is. */
  lemma HeaderIndexFirst(headers: seq<string>, targets: seq<string>)
    ensures var i := HeaderIndex(headers, targets);
      && (i >= 0 ==> Named(Normalise(headers[i]), targets))
      && (forall k :: 0 <= k < |headers| && (i == -1 || k < i) ==> !Named(Normalise(headers[k]), targets))
  {
    var hits := Hits(headers, targets);
    FirstTrueIsFirst(hits);
    assert forall k :: 0 <= k < |headers| ==> hits[k] == Named(Normalise(headers[k]), targets);
  }

  /** A header that a synonym names, with none before it that is, is the one found. */
  lemma HeaderIndexAt(headers: seq<string>, targets: seq<string>, i: nat)
    requires i < |headers| && Named(Normalise(headers[i]), targets)
    requires forall k :: 0 <= k < i ==> !Named(Normalise(headers[k]), targets)
    ensures HeaderIndex(headers, targets) == i
  {
    HeaderIndexFirst(headers, targets);
  }

  /** `targets.findIndex(target => target.toLowerCase() === t)`. */
  function TargetIndex(targets: seq<string>, t: string): (j: int)
    ensures -1 <= j < |targets|
    ensures j >= 0 ==> ToLower(targets[j]) == t
    ensures forall k :: 0 <= k < |targets| && (j == -1 || k < j) ==> ToLower(targets[k]) != t
  {
    TargetFrom(targets, t, 0)
  }

  function TargetFrom(targets: seq<string>, t: string, k: nat): (j: int)
    requires k <= |targets|
    ensures j == -1 || k <= j < |targets|
    ensures j >= 0 ==> ToLower(targets[j]) == t
    ensures forall i :: k <= i < |targets| && (j == -1 || i < j) ==> ToLower(targets[i]) != t
    decreases |targets| - k
  {
    if k == |targets| then -1
    else if ToLower(targets[k]) == t then k
    else TargetFrom(targets, t, k + 1)
  }

  /** `s.indexOf(t)`. */
  function IndexOf(s: seq<string>, t: string): (j: int)
    ensures -1 <= j < |s|
    ensures j >= 0 ==> s[j] == t
    ensures forall k :: 0 <= k < |s| && (j == -1 || k < j) ==> s[k] != t
  {
    IndexFrom(s, t, 0)
  }

  function IndexFrom(s: seq<string>, t: string, k: nat): (j: int)
    requires k <= |s|
    ensures j == -1 || k <= j < |s|
    ensures j >= 0 ==> s[j] == t
    ensures forall i :: k <= i < |s| && (j == -1 || i < j) ==> s[i] != t
    decreases |s| - k
  {
    if k == |s| then -1
    else if s[k] == t then k
    else IndexFrom(s, t, k + 1)
  }

  /** `findHeader(headers, targets)`: walks the normalised headers and, at the first
      one some synonym names, returns the position where that header first occurs. */
  method FindHeader(headers: seq<string>, targets: seq<string>) returns (idx: int)
    ensures idx == HeaderIndex(headers, targets)
  {
    var normalized := seq(|headers|, i requires 0 <= i < |headers| => Normalise(headers[i]));
    idx := ScanHeaders(normalized, targets);
    if idx == -1 {
      NoneNamed(headers, targets, normalized);
    } else {
      var i :| 0 <= i < |normalized| && FirstNamedAt(normalized, targets, i) && idx == IndexOf(normalized, normalized[i]);
      FirstNamed(headers, targets, normalized, i);
    }
  }

  /** The first of the normalised headers `ns` that a synonym names is the one at `i`. */
  predicate FirstNamedAt(ns: seq<string>, targets: seq<string>, i: int)
    requires 0 <= i < |ns|
  {
    Named(ns[i], targets) && forall k :: 0 <= k < i ==> !Named(ns[k], targets)
  }

  /** The loop of `findHeader` over the normalised headers: at the first one a synonym
      names, the first position of its text; -1 when no synonym names any. */
  method ScanHeaders(normalized: seq<string>, targets: seq<string>) returns (idx: int)
    ensures idx == -1 ==> forall k :: 0 <= k < |normalized| ==> !Named(normalized[k], targets)
    ensures idx != -1 ==> exists i :: 0 <= i < |normalized| && FirstNamedAt(normalized, targets, i)
                                      && idx == IndexOf(normalized, normalized[i])
  {
    for i := 0 to |normalized|
      invariant forall k :: 0 <= k < i ==> !Named(normalized[k], targets)
    {
      var t := normalized[i];
      if TargetIndex(targets, t) != -1 {
        idx := IndexOf(normalized, t);
        assert FirstNamedAt(normalized, targets, i);
        return;
      }
      NotNamed(targets, t);
    }
    idx := -1;
  }

  lemma NotNamed(targets: seq<string>, t: string)
    requires TargetIndex(targets, t) == -1
    ensures !Named(t, targets)
  {
  }

  /** The first header a synonym names is the first occurrence of its text. */
  lemma FirstNamed(headers: seq<string>, targets: seq<string>, normalized: seq<string>, i: nat)
    requires |normalized| == |headers| && i < |headers|
    requires forall k :: 0 <= k < |headers| ==> normalized[k] == Normalise(headers[k])
    requires FirstNamedAt(normalized, targets, i)
    ensures IndexOf(normalized, normalized[i]) == i == HeaderIndex(headers, targets)
  {
    HeaderIndexFirst(headers, targets);
  }

  lemma NoneNamed(headers: seq<string>, targets: seq<string>, normalized: seq<string>)
    requires |normalized| == |headers|
    requires forall k :: 0 <= k < |headers| ==> normalized[k] == Normalise(headers[k])
    requires forall k :: 0 <= k < |headers| ==> !Named(normalized[k], targets)
    ensures HeaderIndex(headers, targets) == -1
  {
    HeaderIndexFirst(headers, targets);
  }

  // ---------------------------------------------------------------------------
  // Lines, fields and entries
  // ---------------------------------------------------------------------------

  /** `line.split(',').map(c => c.trim())`. */
  function Columns(line: string): (cols: seq<string>)
    ensures |cols| == |Split(line, ',')|
  {
    var parts := Split(line, ',');
    seq(|parts|, i requires 0 <= i < |parts| => Trim(parts[i]))
  }

  /** `parseInt(cols[idx])`: a column outside the row (or -1) reads `undefined`,
      which parses to NaN, here `None`. */
  function IntAt(cols: seq<string>, idx: int): Option<int>
  {
    if 0 <= idx < |cols| then ParseInt(cols[idx]) else None
  }

  /** `parseFloat(cols[idx])`, with `None` for NaN. */
  function FloatAt(cols: seq<string>, idx: int): Option<real>
  {
    if 0 <= idx < |cols| then ParseFloat(cols[idx]) else None
  }

  /** The columns of a calibration file. */
  datatype CalColumns = CalColumns(x: int, y: int, value: int)

  /** The columns of a mapping file; `element` is optional. */
  datatype MapColumns = MapColumns(x: int, y: int, chip: int, port: int, element: int)

  function CalibrationColumns(header: string): CalColumns
  {
    var hs := Split(header, ',');
    CalColumns(HeaderIndex(hs, XNames), HeaderIndex(hs, YNames), HeaderIndex(hs, CalNames))
  }

  function MappingColumns(header: string): MapColumns
  {
    var hs := Split(header, ',');
    MapColumns(HeaderIndex(hs, XNames), HeaderIndex(hs, YNames), HeaderIndex(hs, ChipNames),
               HeaderIndex(hs, PortNames), HeaderIndex(hs, ElementNames))
  }

  /** What one data line of a calibration file writes: nothing for a line with
      fewer than three fields or without numbers in the x, y and value columns. */
  function CalibrationEntry(line: string, c: CalColumns): Option<(ElementKey, real)>
  {
    var cols := Columns(line);
    if |cols| < 3 then None
    else
      var x := IntAt(cols, c.x);
      var y := IntAt(cols, c.y);
      var v := FloatAt(cols, c.value);
      if x.Some? && y.Some? && v.Some? then Some(((x.value, y.value), v.value)) else None
  }

  /** The element id a mapping line gives: none when the file has no element
      column or the field is not a number. */
  function ElementIdOf(cols: seq<string>, c: MapColumns): Option<int>
  {
    if c.element != -1 then IntAt(cols, c.element) else None
  }

  /** What one data line of a mapping file writes: nothing for a line with fewer
      than four fields or without numbers in the x, y, chip and port columns. */
  function MappingEntry(line: string, c: MapColumns): Option<(ElementKey, PortMapping)>
  {
    MappingFields(Columns(line), c)
  }

  /** The entry the fields `cols` of a mapping line give. */
  function MappingFields(cols: seq<string>, c: MapColumns): Option<(ElementKey, PortMapping)>
  {
    if |cols| < 4 then None
    else
      var x := IntAt(cols, c.x);
      var y := IntAt(cols, c.y);
      var cid := IntAt(cols, c.chip);
      var pid := IntAt(cols, c.port);
      if x.Some? && y.Some? && cid.Some? && pid.Some? then
        Some(((x.value, y.value), PortMapping(cid.value, pid.value, ElementIdOf(cols, c))))
      else None
  }

  /** The map the writes `es` leave, in order: each later write to a key replaces
      the earlier one. */
  function Collect<V>(es: seq<Option<(ElementKey, V)>>): map<ElementKey, V>
  {
    if es == [] then map[]
    else
      var m := Collect(es[..|es| - 1]);
      var e := es[|es| - 1];
      if e.Some? then m[e.value.0 := e.value.1] else m
  }

  function CalibrationEntries(body: seq<string>, c: CalColumns): (es: seq<Option<(ElementKey, real)>>)
    ensures |es| == |body|
  {
    seq(|body|, i requires 0 <= i < |body| => CalibrationEntry(body[i], c))
  }

  function MappingEntries(body: seq<string>, c: MapColumns): (es: seq<Option<(ElementKey, PortMapping)>>)
    ensures |es| == |body|
  {
    seq(|body|, i requires 0 <= i < |body| => MappingEntry(body[i], c))
  }

  /** The calibration map the data lines `body` give under the columns `c`. */
  function CalibrationRows(body: seq<string>, c: CalColumns): CalibrationMap
  {
    Collect(CalibrationEntries(body, c))
  }

  /** The port-mapping map the data lines `body` give under the columns `c`. */
  function MappingRows(body: seq<string>, c: MapColumns): PortMappingMap
  {
    Collect(MappingEntries(body, c))
  }

  /** The calibration map of a file's text: the first line is the header row. */
  function CalibrationOf(text: string): CalibrationMap
  {
    var lines := Split(text, '\n');
    if |lines| < 2 then map[] else CalibrationRows(lines[1..], CalibrationColumns(lines[0]))
  }

  /** The port-mapping map of a file's text. */
  function MappingOf(text: string): PortMappingMap
  {
    var lines := Split(text, '\n');
    if |lines| < 2 then map[] else MappingRows(lines[1..], MappingColumns(lines[0]))
  }

  // ---------------------------------------------------------------------------
  // The parsers
  // ---------------------------------------------------------------------------

  /** `parseCalibrationFile`, on the text of the file. */
  method ParseCalibrationFile(text: string) returns (m: CalibrationMap)
    ensures m == CalibrationOf(text)
  {
    var lines := Split(text, '\n');
    m := map[];
    if |lines| < 2 {
      return;
    }
    var headers := Split(lines[0], ',');
    var xIdx := FindHeader(headers, XNames);
    var yIdx := FindHeader(headers, YNames);
    var valIdx := FindHeader(headers, CalNames);
    var c := CalColumns(xIdx, yIdx, valIdx);
    m := CalibrationLines(lines, c);
    CalibrationText(text, c, m);
  }

  /** The loop of `parseCalibrationFile` over the data lines, after the header row. */
  method CalibrationLines(lines: seq<string>, c: CalColumns) returns (m: CalibrationMap)
    requires |lines| >= 1
    ensures m == CalibrationRows(lines[1..], c)
  {
    m := map[];
    ghost var es := CalibrationEntries(lines[1..], c);
    for i := 1 to |lines|
      invariant m == Collect(es[..i - 1])
    {
      CollectStep(es, i - 1);
      m := CalibrationLine(m, lines[i], c);
    }
    assert es[..|lines| - 1] == es;
  }

  lemma CalibrationText(text: string, c: CalColumns, m: CalibrationMap)
    requires var lines := Split(text, '\n');
      |lines| >= 2 && c == CalibrationColumns(lines[0]) && m == Collect(CalibrationEntries(lines[1..], c))
    ensures m == CalibrationOf(text)
  {
  }

  /** The body of the calibration loop for one line. */
  method CalibrationLine(m0: CalibrationMap, line: string, c: CalColumns) returns (m: CalibrationMap)
    ensures m == match CalibrationEntry(line, c) case None => m0 case Some(e) => m0[e.0 := e.1]
  {
    m := m0;
    var cols := Columns(line);
    if |cols| < 3 {
      return;
    }
    var x := IntAt(cols, c.x);
    var y := IntAt(cols, c.y);
    var v := FloatAt(cols, c.value);
    if x.Some? && y.Some? && v.Some? {
      m := m[(x.value, y.value) := v.value];
    }
  }

  /** `parseMappingFile`, on the text of the file. */
  method ParseMappingFile(text: string) returns (m: PortMappingMap)
    ensures m == MappingOf(text)
  {
    var lines := Split(text, '\n');
    m := map[];
    if |lines| < 2 {
      return;
    }
    var headers := Split(lines[0], ',');
    var xIdx := FindHeader(headers, XNames);
    var yIdx := FindHeader(headers, YNames);
    var chipIdx := FindHeader(headers, ChipNames);
    var portIdx := FindHeader(headers, PortNames);
    var eleIdx := FindHeader(headers, ElementNames);
    var c := MapColumns(xIdx, yIdx, chipIdx, portIdx, eleIdx);
    m := MappingLines(lines, c);
    MappingText(text, c, m);
  }

  /** The loop of `parseMappingFile` over the data lines, after the header row. */
  method MappingLines(lines: seq<string>, c: MapColumns) returns (m: PortMappingMap)
    requires |lines| >= 1
    ensures m == MappingRows(lines[1..], c)
  {
    m := map[];
    ghost var es := MappingEntries(lines[1..], c);
    for i := 1 to |lines|
      invariant m == Collect(es[..i - 1])
    {
      CollectStep(es, i - 1);
      m := MappingLine(m, lines[i], c);
    }
    assert es[..|lines| - 1] == es;
  }

  lemma MappingText(text: string, c: MapColumns, m: PortMappingMap)
    requires var lines := Split(text, '\n');
      |lines| >= 2 && c == MappingColumns(lines[0]) && m == Collect(MappingEntries(lines[1..], c))
    ensures m == MappingOf(text)
  {
  }

  /** The body of the mapping loop for one line. */
  method MappingLine(m0: PortMappingMap, line: string, c: MapColumns) returns (m: PortMappingMap)
    ensures m == match MappingEntry(line, c) case None => m0 case Some(e) => m0[e.0 := e.1]
  {
    m := m0;
    var cols := Columns(line);
    assert MappingEntry(line, c) == MappingFields(cols, c);
    if |cols| < 4 {
      return;
    }
    var x := IntAt(cols, c.x);
    var y := IntAt(cols, c.y);
    var cid := IntAt(cols, c.chip);
    var pid := IntAt(cols, c.port);
    var eid := if c.element != -1 then IntAt(cols, c.element) else None;
    if x.Some? && y.Some? && cid.Some? && pid.Some? {
      m := m[(x.value, y.value) := PortMapping(cid.value, pid.value, eid)];
    }
  }

  lemma CollectStep<V>(es: seq<Option<(ElementKey, V)>>, k: nat)
    requires k < |es|
    ensures Collect(es[..k + 1])
         == if es[k].Some? then Collect(es[..k])[es[k].value.0 := es[k].value.1] else Collect(es[..k])
  {
    assert es[..k + 1][..k] == es[..k];
  }

  // ---------------------------------------------------------------------------
  // What the parsers promise
  // ---------------------------------------------------------------------------

  /** A key is in the collected map exactly when some write is to that key. */
  lemma {:induction false} CollectKeys<V>(es: seq<Option<(ElementKey, V)>>, key: ElementKey)
    ensures key in Collect(es) <==> exists i :: 0 <= i < |es| && es[i].Some? && es[i].value.0 == key
    decreases |es|
  {
    if es != [] {
      var init := es[..|es| - 1];
      CollectKeys(init, key);
      if key in Collect(es) && !(key in Collect(init)) {
        assert es[|es| - 1].Some? && es[|es| - 1].value.0 == key;
      }
      if key in Collect(init) {
        var i :| 0 <= i < |init| && init[i].Some? && init[i].value.0 == key;
        assert es[i] == init[i];
      }
      if exists i :: 0 <= i < |es| && es[i].Some? && es[i].value.0 == key {
        var i :| 0 <= i < |es| && es[i].Some? && es[i].value.0 == key;
        if i < |es| - 1 {
          assert init[i] == es[i];
        }
      }
    }
  }

  /** Every value in the collected map is the value of some write to its key. */
  lemma {:induction false} CollectValue<V>(es: seq<Option<(ElementKey, V)>>, key: ElementKey)
    requires key in Collect(es)
    ensures exists i :: 0 <= i < |es| && es[i] == Some((key, Collect(es)[key]))
    decreases |es|
  {
    var init := es[..|es| - 1];
    var last := es[|es| - 1];
    if last.Some? && last.value.0 == key {
      assert es[|es| - 1] == Some((key, Collect(es)[key]));
    } else {
      CollectValue(init, key);
      var i :| 0 <= i < |init| && init[i] == Some((key, Collect(init)[key]));
      assert es[i] == init[i];
    }
  }

  /** The last write to a key decides its value: later writes to other keys and
      lines that write nothing leave it alone. */
  lemma {:induction false} CollectLastWins<V>(es: seq<Option<(ElementKey, V)>>, i: nat)
    requires i < |es| && es[i].Some?
    requires forall j :: i < j < |es| && es[j].Some? ==> es[j].value.0 != es[i].value.0
    ensures es[i].value.0 in Collect(es) && Collect(es)[es[i].value.0] == es[i].value.1
    decreases |es|
  {
    var init := es[..|es| - 1];
    if i < |es| - 1 {
      assert init[i] == es[i];
      CollectLastWins(init, i);
    }
  }

  /** Writes that all do nothing leave the map empty. */
  lemma {:induction false} CollectNothing<V>(es: seq<Option<(ElementKey, V)>>)
    requires forall i :: 0 <= i < |es| ==> es[i].None?
    ensures Collect(es) == map[]
    decreases |es|
  {
    if es != [] {
      CollectNothing(es[..|es| - 1]);
    }
  }

  /** A text without a line break (a header alone, or nothing) gives empty maps. */
  lemma SingleLine(text: string)
    requires '\n' !in text
    ensures CalibrationOf(text) == map[]
    ensures MappingOf(text) == map[]
  {
    SplitNoSeparator(text, '\n');
  }

  /** A calibration line counts when it has at least three fields and the x, y and
      value columns hold numbers. */
  predicate CalibrationWrites(line: string, c: CalColumns, key: ElementKey)
  {
    var cols := Columns(line);
    && |cols| >= 3
    && IntAt(cols, c.x) == Some(key.0) && IntAt(cols, c.y) == Some(key.1)
    && FloatAt(cols, c.value).Some?
  }

  /** A calibration line counts for `key` exactly when it yields an entry for `key`. */
  lemma CalibrationWritesEntry(line: string, c: CalColumns, key: ElementKey)
    ensures CalibrationWrites(line, c, key) <==> CalibrationEntry(line, c).Some? && CalibrationEntry(line, c).value.0 == key
  {
  }

  /** The keys of the calibration map are exactly the (x, y) of the data lines that
      count: shorter lines and lines with a field that is not a number are skipped. */
  lemma CalibrationKeys(body: seq<string>, c: CalColumns, key: ElementKey)
    ensures key in CalibrationRows(body, c) <==> exists i :: 0 <= i < |body| && CalibrationWrites(body[i], c, key)
  {
    var es := CalibrationEntries(body, c);
    CollectKeys(es, key);
    forall i | 0 <= i < |body|
      ensures CalibrationWrites(body[i], c, key) <==> es[i].Some? && es[i].value.0 == key
    {
      CalibrationWritesEntry(body[i], c, key);
    }
  }

  /** A later line for the same element overwrites an earlier one: the value is the
      one of the last line that counts for that element. */
  lemma CalibrationLastWins(body: seq<string>, c: CalColumns, i: nat, key: ElementKey)
    requires i < |body| && CalibrationWrites(body[i], c, key)
    requires forall j :: i < j < |body| ==> !CalibrationWrites(body[j], c, key)
    ensures key in CalibrationRows(body, c)
    ensures CalibrationRows(body, c)[key] == FloatAt(Columns(body[i]), c.value).value
  {
    var es := CalibrationEntries(body, c);
    CalibrationWritesEntry(body[i], c, key);
    forall j | i < j < |es| && es[j].Some? ensures es[j].value.0 != es[i].value.0 {
      CalibrationWritesEntry(body[j], c, key);
    }
    CollectLastWins(es, i);
  }

  /** Without an x, y or value column no line counts and the map is empty. */
  lemma CalibrationMissingColumn(body: seq<string>, c: CalColumns)
    requires c.x == -1 || c.y == -1 || c.value == -1
    ensures CalibrationRows(body, c) == map[]
  {
    var es := CalibrationEntries(body, c);
    forall i | 0 <= i < |es| ensures es[i].None? {
    }
    CollectNothing(es);
  }

  /** A header row none of whose cells names a field gives that field the column -1. */
  lemma HeaderMissing(headers: seq<string>, targets: seq<string>)
    requires forall k :: 0 <= k < |headers| ==> !Named(Normalise(headers[k]), targets)
    ensures HeaderIndex(headers, targets) == -1
  {
    HeaderIndexFirst(headers, targets);
  }

  /** A mapping line counts when it has at least four fields and the x, y, chip and
      port columns hold numbers. */
  predicate MappingWrites(line: string, c: MapColumns, key: ElementKey)
  {
    var cols := Columns(line);
    && |cols| >= 4
    && IntAt(cols, c.x) == Some(key.0) && IntAt(cols, c.y) == Some(key.1)
    && IntAt(cols, c.chip).Some? && IntAt(cols, c.port).Some?
  }

  /** A mapping line counts for `key` exactly when it yields an entry for `key`. */
  lemma MappingWritesEntry(line: string, c: MapColumns, key: ElementKey)
    ensures MappingWrites(line, c, key) <==> MappingEntry(line, c).Some? && MappingEntry(line, c).value.0 == key
  {
  }

  /** The keys of the port mapping are exactly the (x, y) of the data lines that count. */
  lemma MappingKeys(body: seq<string>, c: MapColumns, key: ElementKey)
    ensures key in MappingRows(body, c) <==> exists i :: 0 <= i < |body| && MappingWrites(body[i], c, key)
  {
    var es := MappingEntries(body, c);
    CollectKeys(es, key);
    forall i | 0 <= i < |body|
      ensures MappingWrites(body[i], c, key) <==> es[i].Some? && es[i].value.0 == key
    {
      MappingWritesEntry(body[i], c, key);
    }
  }

  /** The last line that counts for an element decides its chip, port and element id. */
  lemma MappingLastWins(body: seq<string>, c: MapColumns, i: nat, key: ElementKey)
    requires i < |body| && MappingWrites(body[i], c, key)
    requires forall j :: i < j < |body| ==> !MappingWrites(body[j], c, key)
    ensures key in MappingRows(body, c)
    ensures var cols := Columns(body[i]);
      MappingRows(body, c)[key]
        == PortMapping(IntAt(cols, c.chip).value, IntAt(cols, c.port).value, ElementIdOf(cols, c))
  {
    var es := MappingEntries(body, c);
    MappingWritesEntry(body[i], c, key);
    forall j | i < j < |es| && es[j].Some? ensures es[j].value.0 != es[i].value.0 {
      MappingWritesEntry(body[j], c, key);
    }
    CollectLastWins(es, i);
  }

  /** Without an element column no mapping carries an element id. */
  lemma MappingWithoutElementColumn(body: seq<string>, c: MapColumns, key: ElementKey)
    requires c.element == -1 && key in MappingRows(body, c)
    ensures MappingRows(body, c)[key].elementId == None
  {
    var es := MappingEntries(body, c);
    CollectValue(es, key);
  }

  /** Without an x, y, chip or port column no line counts and the map is empty. */
  lemma MappingMissingColumn(body: seq<string>, c: MapColumns)
    requires c.x == -1 || c.y == -1 || c.chip == -1 || c.port == -1
    ensures MappingRows(body, c) == map[]
  {
    var es := MappingEntries(body, c);
    forall i | 0 <= i < |es| ensures es[i].None? {
    }
    CollectNothing(es);
  }
}
