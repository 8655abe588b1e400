# Beam-table generator — a Dafny model

This project models the beam-table engine of a phased-array steering tool and
proves properties of the model. Given an array, a scan range, a list of
quantising ICs and per-element calibration maps, the engine computes one table
row per (beam, element) pair. Each row carries:

- the beam's target angles;
- the element's hardware address;
- its theoretical delay and phase;
- for every IC, the quantised code, the realised value and the error.

The model covers the engine itself (`services/physics.ts`) and the table helpers
of the application shell (`App.tsx`).

- **Sweep** (`scan_range.dfy`): `generateRange`. The ascending sweep and the sweep that wraps through 360° are proved against closed forms.
- **Topology** (`topology.dfy`): the element → linear index → (chip, port, element id) wiring.
  - Row-major, column-major and custom orders.
  - The uniform wiring is proved a bijection.
- **Quantiser** (`quantiser.dfy`): the per-IC target rules and `round(target/lsb)`.
  - Target rules: mode zeroing, polarity, offset, HYBRID clamp, period and 360° wraps, and the cap at `max`.
  - Also covered: the realised value, the error and the `0x…` hex cell.
- **BeamTable** (`beam_table.dfy`): `calculateBeamTable`, written as nested loops.
  - The loops are proved equal to a functional table.
  - Each beam's grid is stably sorted by Element_ID.
- **BeamProperties** (`beam_properties.dfy`):
  - table size, beam numbering and row order;
  - the delay normalisation, with an element at zero;
  - the hardware address of every row.
- **Ingestion** (`ingestion.dfy`): `findHeader`, `parseCalibrationFile` and `parseMappingFile` on the file's text. Bad lines are skipped, and later lines overwrite earlier ones.
- **AppTable** (`app_table.dfy`): the App.tsx helpers.
  - `compareElements` and `sortData`;
  - `updateIc`;
  - `handleCoordinateSwitch`;
  - the `activeColumns` and `uniqueBeams` memos;
  - the MAPPING template: the saved file, read back through the mapping parser, gives every grid element exactly the wiring it was written with, and nothing else;
  - the `HW_Addr` cell.
- **Support modules:**
  - `JsNumber`: JavaScript number semantics.
    - Truncating `%`, `Math.round` and `toFixed` rounding.
    - Decimal and hex rendering, and `padStart`.
  - `Text`: `split`/`join`, `trim`, `toLowerCase`, `parseInt` and `parseFloat`.
  - `StableSort`: a stable lexicographic insertion sort, as a function and in place on an array.
  - `Seqs`: small sequence lemmas.
  - `Types`: the configuration records of `types.ts`.

Numbers are exact reals and unbounded integers. The direction cosines of a
beam (the sine and cosine products of the path-difference formula) are a
function supplied with the job. Keys written `"x,y"` in the source become
integer pairs.

Where the code and its written description differ, the model follows the code:

- **Target_Az and Target_Phi** use JavaScript's truncating `%`. A negative azimuth therefore stays negative instead of being brought into [0, 360) (`BeamProperties.NegativeAzimuthKept`).
- **The theoretical phase** also uses the truncating `%`. It lies in [0, 360) only because the delay it comes from is never negative (`BeamProperties.DelayNonNegative`).

## Model

| member | source | states |
|---|---|---|
| JsNumber.JsMod | services/physics.ts:194 | JavaScript `%` keeps the sign of the dividend: the result is in [0, p) for x ≥ 0 and in (−p, 0] for x < 0 |
| JsNumber.WrapInto | services/physics.ts:37-38 | `x % p`, plus p when negative, always lands in [0, p) |
| JsNumber.WrapIntoIsFloorMod | services/physics.ts:37-38 | that wrap equals the floor remainder x − p·⌊x/p⌋ |
| JsNumber.JsModIdentity | services/physics.ts:168 | a value strictly inside (−p, p) is left unchanged by `%` |
| JsNumber.JsRound | services/physics.ts:199 | `Math.round` is within half a unit of its argument |
| JsNumber.JsRoundMonotone | services/physics.ts:199 | `Math.round` preserves order |
| JsNumber.ToFixed | services/physics.ts:201 | 3-decimal rounding stays within half a unit of the last place and keeps the sign |
| JsNumber.PadStart | App.tsx:812 | `padStart` gives the longer of the text's length and the width, keeps s as the suffix and fills with the pad character |
| JsNumber.IntToDecimal | App.tsx:812 | the decimal text of an integer is non-empty and starts with a minus sign exactly for negatives (Text.ParseIntRoundTrip reads it back as the integer) |
| JsNumber.CodeHexRoundTrip | services/physics.ts:203 | the hex cell is "0x" followed by at least two upper-case hex digits, the length is max(2, digit count), and the digits read back as the code |
| JsNumber.CodeHexTen | services/physics.ts:203 | code 10 renders as "0x0A" (zero padded) |
| JsNumber.CodeHexThreeHundred | services/physics.ts:203 | code 300 renders as "0x12C" (no truncation) |
| JsNumber.CodeHexTwoFiftyFive | services/physics.ts:203 | code 255 renders as "0xFF" |
| JsNumber.HexRoundTrip | services/physics.ts:203 | `toString(16)` digits read back as the number |
| Text.Split | services/physics.ts:233 | `split` always returns at least one piece, and no piece holds the separator |
| Text.JoinSplit | services/physics.ts:233 | joining the pieces of a split with the separator gives back the text |
| Text.SplitJoin | services/physics.ts:243 | splitting a join of separator-free pieces gives back the pieces |
| Text.TrimStartDropsWhitespace | services/physics.ts:14 | everything `trim` drops at the front is white space, and what remains does not start with white space |
| Text.TrimEnd | services/physics.ts:243 | what `trim` drops at the end is white space, and what remains is a prefix that does not end in white space |
| Text.ParseIntRoundTrip | services/physics.ts:245 | `parseInt` reads the decimal text of every integer back as that integer |
| Text.ParseIntBefore | services/physics.ts:271-274 | `parseInt` stops at the first character that is not a digit: an integer's text followed by such text reads back as the integer |
| Text.ParseDigitsBefore | services/physics.ts:271-274 | a digit string followed by a non-digit reads as its decimal value |
| Text.DecimalRoundTrip | services/physics.ts:245 | the digits of n denote n |
| Text.DigitPrefix | services/physics.ts:245 | the digit run `parseInt` reads is the longest run of digits at the front |
| StableSort.SortPermutation | services/physics.ts:159 | sorting keeps every element exactly as often as before |
| StableSort.SortSorted | services/physics.ts:159 | the sorted sequence is in non-decreasing lexicographic key order |
| StableSort.SortStable | services/physics.ts:159 | elements with equal keys keep their original relative order |
| StableSort.LexLeTotal | App.tsx:791-802 | the lexicographic order on keys is total |
| StableSort.LexLeTransitive | App.tsx:791-802 | the lexicographic order on keys is transitive |
| StableSort.LexLeAntisymmetric | App.tsx:791-802 | keys that are ordered both ways are equal |
| StableSort.SortInPlace | services/physics.ts:159 | the in-place array sort leaves exactly the stable sort of the old contents |
| StableSort.InsertIntoPrefix | services/physics.ts:159 | one insertion step places a[i] into the sorted prefix and leaves the rest of the array unchanged |
| Sweep.GenerateRange | services/physics.ts:25-44 | the loops of `generateRange` produce exactly the closed-form sweep |
| Sweep.AscendingLoop | services/physics.ts:29-32 | the ascending loop emits start + k·step for each k whose step count stays within end + 0.0001 |
| Sweep.WrappingLoop | services/physics.ts:33-42 | the wrapping loop emits (start + k·step) wrapped into [0, 360) while k·step ≤ (360 − start) + end + 0.0001 |
| Sweep.NonPositiveStep | services/physics.ts:26 | a step ≤ 0 gives exactly [start] |
| Sweep.AscendingSweep | services/physics.ts:29-32 | with start ≤ end the sweep starts at start, advances by step, stays within end + 0.0001, and one more step would pass it |
| Sweep.WrappingSweep | services/physics.ts:33-42 | with start > end every point is start + k·step wrapped into [0, 360), every distance is within the limit, and the next one is not |
| Sweep.WrappingSweepTurns | services/physics.ts:37-38 | every wrapped point differs from start + k·step by whole turns |
| Sweep.WrappingSweepEmpty | services/physics.ts:36 | a start more than a full turn past the end gives no points |
| Sweep.AscendingExample | services/physics.ts:29-32 | (0, 30, 5) gives [0, 5, 10, 15, 20, 25, 30] |
| Sweep.WrappingExample | services/physics.ts:33-42 | (350, 10, 5) gives [350, 355, 0, 5, 10] |
| Sweep.StepCount | services/physics.ts:30 | the number of points is the first k with k·step past the limit: all earlier offsets are within it |
| Topology.UniformAddress | services/physics.ts:141-144 | chip·elementsPerChip + port is the linear index, 0 ≤ port < elementsPerChip, and the element id is the linear index |
| Topology.Resolve | services/physics.ts:132-144 | without a custom entry the uniform wiring of the linear index applies; a custom entry gives chip and port, and its element id only when it has one |
| Topology.LinearIndexInRange | services/physics.ts:132 | the linear index of an element of the grid lies in [0, nx·ny) for both orders |
| Topology.GridPositionOfLinearIndex | services/physics.ts:132 | the grid position recovered from the linear index is the element's own, so the index is injective |
| Topology.LinearIndexOfGridPosition | services/physics.ts:132 | every index in [0, nx·ny) is the linear index of a grid element, so the index is onto |
| Topology.UniformWiringInjective | services/physics.ts:132-144 | under row- or column-major order two different elements get different element ids and different (chip, port) pairs |
| Topology.ColumnMajorExample | services/physics.ts:132 | in a 4×2 column-major array with four ports per chip, element (1, 1) is chip 0, port 3, element 3 |
| Quantiser.Adjusted | services/physics.ts:188-189 | NORMAL adds the offset to the input; INVERTED adds it to max − input |
| Quantiser.PolarityDirection | services/physics.ts:209-210 | NORMAL follows changes of the input; INVERTED reverses them |
| Quantiser.TtdTarget | services/physics.ts:184-198 | PS_ONLY gives 0; HYBRID clamps the adjusted value into [0, max]; TTD_ONLY wraps it into [0, period) and caps it at max |
| Quantiser.PsTarget | services/physics.ts:205-214 | TTD_ONLY gives 0; otherwise the adjusted phase is wrapped into [0, 360) and capped at max |
| Quantiser.TargetWithinRange | services/physics.ts:184-214 | for max ≥ 0 every target lies in [0, max], in every mode and for both IC types |
| Quantiser.PsTargetWholeTurns | services/physics.ts:208-213 | a PS target under the cap differs from the adjusted phase by whole turns |
| Quantiser.CodeError | services/physics.ts:199-200 | the realised value code·lsb is within half an LSB of the target |
| Quantiser.CodeBounds | services/physics.ts:199 | a target in [0, max] gets a code between 0 and round(max/lsb) |
| Quantiser.Quantise | services/physics.ts:199-204 | the stage cells carry the IC's name and the unit of its type |
| Quantiser.CodeNearest | services/physics.ts:199-200 | no integer code realises a value closer to the target than round(target/lsb) does |
| Quantiser.QuantiseNearest | services/physics.ts:199-204 | the Code_Dec cell of a stage with a positive LSB is the code whose realised value is nearest the target |
| Quantiser.QuantiseErrorBound | services/physics.ts:204 | the reported error is within half an LSB, plus the 3-decimal rounding |
| Quantiser.QuantiseHex | services/physics.ts:203 | the Code_Hex cell is "0x" and upper-case hex digits that read back as Code_Dec |
| Quantiser.Stage | services/physics.ts:183-221 | a TTD stage reports in ps from the TTD target; a PS stage reports in deg from the PS target |
| Quantiser.StageCodeBounds | services/physics.ts:199-215 | for lsb > 0 and max ≥ 0 every code lies between 0 and round(max/lsb) |
| Quantiser.SwitchedOffStage | services/physics.ts:185-207 | a stage its mode switches off reports code 0, "0x00", actual 0 and error 0 |
| BeamTable.FrequencyHz | services/physics.ts:83 | the frequency in Hz is positive for a positive frequency in GHz |
| BeamTable.PeriodPs | services/physics.ts:84 | the RF period in ps is positive |
| BeamTable.BeamTargets | services/physics.ts:99-109 | AZ/EL takes az, el from the sweep; Θ/Φ takes φ, θ; in both, θ = 90 − el and φ = az |
| BeamTable.PositionCentred | services/physics.ts:117-118 | element positions are centred on the array: mirrored elements sit at opposite positions |
| BeamTable.GridRow | services/physics.ts:116 | one grid row holds its elements x ascending |
| BeamTable.GridLength | services/physics.ts:115-116 | the grid has nx entries per grid row |
| BeamTable.GridAt | services/physics.ts:115-156 | the entry of element (x, y) sits at position y·nx + x (y outer, x inner) |
| BeamTable.MinRaw | services/physics.ts:158 | the minimum is no larger than any arrival time and is one of them |
| BeamTable.Stages | services/physics.ts:183 | a row carries one stage per IC |
| BeamTable.OuterPairs | services/physics.ts:93 | the inner sweep pairs one outer value with every inner value, in order |
| BeamTable.CalculateBeamTable | services/physics.ts:76-229 | the nested loops build exactly the functional table |
| BeamTable.InnerSweep | services/physics.ts:93-226 | the inner loop appends one beam per inner value and advances the beam counter by one each time |
| BeamTable.EmitBeam | services/physics.ts:94-225 | one beam's rows are those of its stably sorted grid |
| BeamTable.EmitRows | services/physics.ts:161-224 | the row loop emits one row per sorted grid entry, in order |
| BeamTable.ElementRow | services/physics.ts:162-222 | one row holds the element's cells and its IC stages |
| BeamTable.BuildGrid | services/physics.ts:114-156 | the grid loops build the grid y outer, x inner |
| BeamTable.StageCells | services/physics.ts:183-222 | the IC loop produces one stage per IC in IC-list order |
| BeamTable.StageCell | services/physics.ts:184-221 | each stage cell is the stage function of its IC |
| BeamTable.TableRowsStep | services/physics.ts:223-225 | a new beam appends its rows after all earlier rows |
| BeamProperties.BeamItemsPermutation | services/physics.ts:159 | sorting a beam's grid keeps every element: nx·ny entries, the same multiset |
| BeamProperties.BeamRowCount | services/physics.ts:161-224 | every beam emits exactly nx·ny rows |
| BeamProperties.BeamElementOrder | services/physics.ts:159 | within a beam the rows are in non-decreasing Element_ID |
| BeamProperties.BeamOrderStable | services/physics.ts:159 | elements sharing an Element_ID keep their y-outer/x-inner generation order |
| BeamProperties.BeamRowAddress | services/physics.ts:127-176 | every row has the beam's number and the channel name, lies inside the grid, and carries the address the topology gives its position |
| BeamProperties.BeamCoversArray | services/physics.ts:115-156 | every element of the array appears in every beam |
| BeamProperties.DelayNonNegative | services/physics.ts:158-180 | every theoretical delay is ≥ 0 and the phase is in [0, 360); both stay non-negative after 2-decimal rounding |
| BeamProperties.EarliestIsZero | services/physics.ts:158-163 | the element with the minimum arrival time has delay 0 and phase 0 |
| BeamProperties.ZeroReference | services/physics.ts:158 | every beam of a non-empty array has such a zero-reference element |
| BeamProperties.BroadsideBeam | services/physics.ts:120-163 | at broadside every element has delay 0 and phase 0 |
| BeamProperties.NegativeAzimuthKept | services/physics.ts:168 | an AZ/EL azimuth in (−360, 0) is shown as itself, rounded, and stays ≤ 0 |
| BeamProperties.RowStageCodes | services/physics.ts:183-221 | every row has one stage per IC in IC-list order, each code in [0, round(max/lsb)] |
| BeamProperties.PairsLength | services/physics.ts:92-93 | there is one beam per pair of an outer and an inner sweep value |
| BeamProperties.PairsAt | services/physics.ts:92-93 | with m inner values, beam i·m + j is (range1[i], range2[j]): range1 is the outer loop |
| BeamProperties.TableRowsLength | services/physics.ts:223 | the table has one row per beam and element |
| BeamProperties.TableSize | services/physics.ts:92-225 | the table has (outer sweep length)·(inner sweep length)·nx·ny rows |
| BeamProperties.BeamRowId | services/physics.ts:167 | every row of a beam carries that beam's number |
| BeamProperties.TableOrder | services/physics.ts:90-225 | with m inner values, row (i·m + j)·nx·ny + e is row e of the beam of (range1[i], range2[j]), numbered i·m + j + 1 |
| Ingestion.HeaderIndexFirst | services/physics.ts:13-20 | the header found is a trimmed, lower-cased synonym and no earlier header is; −1 means none is |
| Ingestion.HeaderIndexAt | services/physics.ts:13-20 | the first header named by a synonym is the one returned |
| Ingestion.HeaderMissing | services/physics.ts:19 | a header row with no synonym gives −1 |
| Ingestion.FindHeader | services/physics.ts:13-20 | the loop with its early return computes the first matching header |
| Ingestion.ScanHeaders | services/physics.ts:15-19 | the loop stops at the first normalised header some synonym matches, or reports that none does |
| Ingestion.TargetIndex | services/physics.ts:16 | `findIndex` gives the first synonym equal in lower case, or −1 when there is none |
| Ingestion.IndexOf | services/physics.ts:17 | `indexOf` gives the first equal entry, or −1 when there is none |
| Ingestion.FirstNamed | services/physics.ts:17 | `indexOf` of the first matching header returns that header's own position |
| Ingestion.Columns | services/physics.ts:243 | a line has as many fields as `split(',')` gives pieces |
| Ingestion.ParseCalibrationFile | services/physics.ts:231-253 | the line loop builds exactly the calibration map of the text |
| Ingestion.CalibrationLines | services/physics.ts:242-251 | the loop over the data lines leaves the map of those lines |
| Ingestion.CalibrationLine | services/physics.ts:243-250 | a line that yields an entry writes it, and any other line leaves the map unchanged |
| Ingestion.ParseMappingFile | services/physics.ts:255-286 | the line loop builds exactly the port mapping of the text |
| Ingestion.MappingLines | services/physics.ts:268-284 | the loop over the data lines leaves the map of those lines |
| Ingestion.MappingLine | services/physics.ts:269-283 | a line that yields an entry writes it, and any other line leaves the map unchanged |
| Ingestion.SingleLine | services/physics.ts:235 | a text with fewer than two lines gives empty maps |
| Ingestion.CalibrationWritesEntry | services/physics.ts:244-249 | a calibration line writes a key exactly when it has ≥ 3 fields and numbers in the x, y and value columns |
| Ingestion.CalibrationKeys | services/physics.ts:242-251 | the calibration keys are exactly the (x, y) of the data lines that count |
| Ingestion.CalibrationLastWins | services/physics.ts:249 | a key's value comes from the last line that counts for it |
| Ingestion.CalibrationMissingColumn | services/physics.ts:238-248 | without an x, y or value column every line is skipped |
| Ingestion.MappingWritesEntry | services/physics.ts:270-277 | a mapping line writes a key exactly when it has ≥ 4 fields and numbers in the x, y, chip and port columns |
| Ingestion.MappingKeys | services/physics.ts:268-284 | the mapping keys are exactly the (x, y) of the data lines that count |
| Ingestion.MappingLastWins | services/physics.ts:275-282 | the last line that counts for a key decides its chip, port and optional element id |
| Ingestion.MappingWithoutElementColumn | services/physics.ts:275-281 | without an element column no entry has an element id |
| Ingestion.MappingMissingColumn | services/physics.ts:262-277 | without an x, y, chip or port column every line is skipped |
| Ingestion.CollectKeys | services/physics.ts:249 | the keys of the map are exactly the keys written |
| Ingestion.CollectLastWins | services/physics.ts:278 | the last write to a key decides its value |
| Ingestion.CollectValue | services/physics.ts:278 | every value in the map was written by some line |
| AppTable.CompareElementsIsLexOrder | App.tsx:782-788 | `compareElements` is the lexicographic order of (key, Pos_X, Pos_Y) for Element_ID and of (key, Element_ID) otherwise, and reports a tie exactly when those fields agree |
| AppTable.ComparatorIsLexOrder | App.tsx:791-802 | the `sortData` comparator is the lexicographic order of (az, el, element fields) for BEAM and of (element fields, az, el) for ANTENNA, with ties exactly when all agree |
| AppTable.SortData | App.tsx:790-803 | `sortData` returns a fresh array holding the stable sort of the input, and leaves the input untouched |
| AppTable.SortDataPermutation | App.tsx:791 | the sorted rows are a permutation of the input |
| AppTable.BeamPriorityOrder | App.tsx:792-795 | with BEAM priority, rows go by azimuth, then elevation, then element comparator |
| AppTable.AntennaPriorityOrder | App.tsx:796-801 | with ANTENNA priority, rows go by element comparator, then azimuth, then elevation |
| AppTable.ApplyUpdate | App.tsx:841-848 | every field is the edit's or the old one; when bits or max is edited and bits > 0, lsb·(2^bits − 1) = max for TTD and lsb·2^bits = max for PS; otherwise lsb is the merged one |
| AppTable.UpdateIc | App.tsx:839-850 | only the IC with the matching id changes, and every other IC stays in place unchanged |
| AppTable.UpdateIcIdempotent | App.tsx:839-850 | applying the same edit twice is the same as once |
| AppTable.ApplyUpdateIdempotent | App.tsx:842-847 | re-applying an edit to its own result changes nothing |
| AppTable.TtdTopCode | App.tsx:845 | with the derived TTD lsb, max quantises to the top code 2^bits − 1 |
| AppTable.SwitchCoordinates | App.tsx:747-750 | the same system changes nothing; otherwise azimuth and steps stay and (elStart, elEnd) becomes (90 − elEnd, 90 − elStart) |
| AppTable.SwitchTwice | App.tsx:747-750 | switching away and back restores the original range |
| AppTable.IcColumns | App.tsx:716-724 | each IC contributes four columns |
| AppTable.AllIcColumns | App.tsx:716-725 | the IC columns number four per IC |
| AppTable.AllIcColumnsAt | App.tsx:716-725 | IC k's Actual, Code_Dec, Code_Hex and Error columns sit at positions 4k to 4k+3, in IC-list order |
| AppTable.ActiveColumns | App.tsx:710-728 | no columns for an empty table; otherwise the six targeting columns, each visible group's columns in order, then the IC columns when Logic is visible |
| AppTable.BeamSet | App.tsx:732-735 | the set of seen beams is exactly the (az, el) pairs of the listed beams |
| AppTable.UniqueBeams | App.tsx:730-738 | the loop with its `seen` set produces exactly the distinct-beam list |
| AppTable.DistinctBeamsCover | App.tsx:730-738 | every (az, el) pair of the rows is listed, and nothing else is |
| AppTable.DistinctBeamsUnique | App.tsx:734-735 | no (az, el) pair is listed twice |
| AppTable.DistinctBeamsFirstOccurrence | App.tsx:735 | each listed beam is the view of the first row with its (az, el) |
| AppTable.DistinctBeamsOrder | App.tsx:733-736 | beams are listed in first-occurrence order |
| AppTable.MappingTemplate | App.tsx:766-773 | the header is "X_Idx,Y_Idx,Chip_ID,Port_ID,Element_ID"; there are nx·ny lines, and line y·nx + x is "x,y,chip,port,linear" with the uniform wiring of the element's linear index |
| AppTable.TemplateRow | App.tsx:769-772 | the inner loop appends grid row y's lines, x ascending |
| AppTable.TemplateLineColumns | App.tsx:771 | a template line splits into its five decimal fields |
| AppTable.TemplateLineParses | App.tsx:771 | the mapping parser reads a template line back as exactly the address written |
| AppTable.TemplateHeaderColumns | services/physics.ts:261-266 | the template's header gives x, y, chip, port and element id the columns 0 to 4 in the mapping parser |
| AppTable.TemplateLines | App.tsx:778 | the saved template text splits at line breaks into its header and then its rows |
| AppTable.TemplateReadsBack | App.tsx:764-779 | saving the template and reading it back with the mapping parser gives every grid element the chip, port and element id written for it |
| AppTable.TemplateKeys | App.tsx:764-779 | the mapping read back from the template has exactly the grid positions as keys |
| AppTable.ElementLabel | App.tsx:812 | the element id is padded with '0' to at least two characters |
| AppTable.ElementLabelReadsBack | App.tsx:812 | `parseInt` reads the padded label back as the element id |
| AppTable.HwAddrLayout | App.tsx:812 | the cell is "[E", label, "] C", chip, ":P", port, each piece at its place |
| AppTable.HwAddrElement | App.tsx:812 | the element id reads back from the cell after "[E" |
| AppTable.HwAddrChip | App.tsx:812 | the chip id reads back from the cell after "] C" |
| AppTable.HwAddrPort | App.tsx:812 | the port id reads back from the cell after ":P" |
| AppTable.WithHwAddr | App.tsx:810-813 | each row gains its `HW_Addr` cell and nothing else changes |

## Left out

- **Trigonometry** (services/physics.ts:111-112, 120-121): the sines and cosines of the beam direction are a function supplied with the job (`BeamTable.Job.dir`), because Dafny has no trigonometry. Theorems about specific angles are therefore stated for given direction cosines, for example broadside as (0, 0).
- **Floating point:**
  - All arithmetic is on exact reals, so `generateRange`'s accumulation of `v += step` and `distCovered += step` is modelled as its closed form start + k·step.
  - NaN and Infinity are not values of the model.
- **The nx·ny = 0 case** needs no precondition: the source then emits no rows, and `Math.min` of nothing is never used.
- **Preconditions of the generator** (`BeamTable.ValidJob`): a positive frequency, `elementsPerChip` ≥ 1 and a non-zero `lsb` on every IC. A zero frequency, `elementsPerChip` or `lsb` makes the source divide by zero and produce Infinity or NaN; a negative frequency gives a negative RF period (services/physics.ts:84), so the theoretical phase (services/physics.ts:162) comes out at or below zero and the TTD_ONLY wrap (services/physics.ts:194-195) no longer lands in [0, period). The model excludes that case.
- **Decimal rendering:**
  - `toFixed(2)` and `toFixed(3)` are modelled as rounding to 2 or 3 decimals (`JsNumber.ToFixed`), without the binary float underneath.
  - `formatDeg`'s "deg" suffix (services/physics.ts:6-8) is left out: rows hold the number.
- **IC cells:**
  - A row holds its IC cells as a list in IC order (`Row.stages`).
  - In the source they are dictionary fields keyed by IC name, so two ICs with the same name overwrite each other's cells. The model keeps both.
- **String keys:**
  - The `"x,y"` keys of the calibration and mapping dictionaries are integer pairs.
  - The source also merges the key of x = −0 with x = 0. In the model these are the same integer, so nothing is lost.
- **parseInt and parseFloat:**
  - `parseInt` is modelled in full for decimal and "0x" input.
  - `parseFloat` reads digits, an optional fraction and an optional exponent. It does not accept "Infinity".
  - `toLowerCase` lowers ASCII letters only.
- **Array sort:** `Array.prototype.sort` is modelled as a stable insertion sort with the comparator read as a lexicographic key.
  - This is how the source's comparators behave: they compare finite numbers field by field.
  - The stable sort that ECMAScript 2019 requires gives the same order.
- **UI and I/O:** everything in App.tsx other than the named helpers is not part of this model.
  - React state, effects and rendering.
  - The 3-D and 2-D views, the assistant, audio and network calls.
  - `file.text()`, Blob and anchor downloads, `handleExport`, and the `setTimeout` in `handleCompute`.
  - Each modelled helper takes the state it reads as parameters and returns what it would store.
- **Other template branches:** the TTD_CAL and PS_CAL branches of `downloadTemplate` (App.tsx:775-776) are not part of this model; only the MAPPING branch is.
- **getArrayFactorGain** (services/physics.ts:46-74) is not part of this model. It is floating-point numerics (sqrt, non-integer powers) and the table does not use it.
- **Partial updates:** `updateIc`'s `Partial<ICConfig>` is a record of optional fields (`AppTable.IcUpdate`).
  - A field the edit names with the value `undefined` is treated as absent.
- AppTable.ApplyUpdate: the bit count it writes is an integer (`ICConfig.bits`), and so are `ArrayConfig.nx`, `ArrayConfig.ny` and `elementsPerChip`. The form's number fields (App.tsx:1068-1075) pass any `parseFloat` value, so a fractional bit count, array size or chip size typed into the UI is not modelled.
- BeamProperties.TableOrder: stated for the table of any two sweeps `Pairs(r1, r2)`. `BeamTable.Table(job)` is that table for the two ranges of the job, by definition. The lemma is not restated with `Range1(job)` and `Range2(job)` unfolded.
- BeamProperties.DelayNonNegative: states the bound on the exact delay and phase before display rounding. After rounding it only states that both stay ≥ 0; the phase may round up to 360.00.
- Quantiser.QuantiseErrorBound: bounds the error by lsb/2 plus the 3-decimal display rounding, not by lsb/2 exactly.
