/** The configuration entities of the beam-table generator (types.ts), as values.
    Every key written "x,y" in the source becomes an explicit integer pair. */
module Types {

  datatype Option<+T> = None | Some(value: T)

  datatype ICType = TTD | PS
  datatype Polarity = Normal | Inverted
  datatype MappingOrder = RowMajor | ColMajor | Custom
  datatype CoordinateSystem = AzEl | ThetaPhi
  datatype BeamMode = TtdOnly | PsOnly | Hybrid

  /** A grid coordinate (x, y) used as the key of the sparse per-element maps. */
  type ElementKey = (int, int)

  /** One custom element-to-hardware assignment; `elementId` is optional. */
  datatype PortMapping = PortMapping(chipId: int, portId: int, elementId: Option<int>)

  type PortMappingMap = map<ElementKey, PortMapping>

  /** Per-element calibration values (ps for TTD, degrees for PS); absent keys read as 0. */
  type CalibrationMap = map<ElementKey, real>

  /** One quantisation stage (an IC of the beamformer). */
  datatype ICConfig = ICConfig(
    id: string,
    name: string,
    icType: ICType,
    lsb: real,
    max: real,
    bits: Option<int>,
    offset: real,
    polarity: Polarity)

  datatype HardwareTopology = HardwareTopology(
    elementsPerChip: int,
    mappingOrder: MappingOrder,
    customMapping: Option<PortMappingMap>)

  datatype ArrayConfig = ArrayConfig(
    channelName: string,
    frequencyGHz: real,
    nx: nat,
    ny: nat,
    dxMm: real,
    dyMm: real,
    mode: BeamMode,
    topology: HardwareTopology)

  datatype ScanRange = ScanRange(
    system: CoordinateSystem,
    azStart: real,
    azEnd: real,
    azStep: real,
    elStart: real,
    elEnd: real,
    elStep: real)
}
