/** The element-to-hardware mapping of the beam-table generator
    (services/physics.ts:127-144): each grid element (x, y) gets a linear index
    in row- or column-major order, and from it a chip and a port, unless a custom
    mapping table supplies them. */
module Topology {
  import opened Types

  /** Where one element is wired: chip, port on that chip, and its logical id. */
  datatype HardwareAddress = HardwareAddress(chipId: int, portId: int, elementId: int)

  /** The linear index of element (x, y): column-major numbers down the columns,
      every other order (including a custom one) along the rows. */
  function LinearIndex(order: MappingOrder, nx: nat, ny: nat, x: nat, y: nat): (l: int)
    ensures l >= 0
  {
    if order == ColMajor then x * ny + y else y * nx + x
  }

  /** The element the inverse numbering puts at linear index `l`. */
  function GridPosition(order: MappingOrder, nx: nat, ny: nat, l: nat): (p: (nat, nat))
    requires if order == ColMajor then ny > 0 else nx > 0
  {
    if order == ColMajor then (l / ny, l % ny) else (l % nx, l / nx)
  }

  /** The chip and port the uniform wiring gives linear index `l`: consecutive
      indices fill one chip's `elementsPerChip` ports before moving to the next. */
  function UniformAddress(l: nat, elementsPerChip: int): (h: HardwareAddress)
    requires elementsPerChip >= 1
    ensures h.chipId * elementsPerChip + h.portId == l
    ensures 0 <= h.portId < elementsPerChip && h.chipId >= 0
    ensures h.elementId == l
  {
    HardwareAddress(l / elementsPerChip, l % elementsPerChip, l)
  }

  /** The custom table has an entry for (x, y) and is in force. */
  predicate HasCustomEntry(topo: HardwareTopology, x: nat, y: nat)
  {
    topo.mappingOrder == Custom && topo.customMapping.Some? && (x as int, y as int) in topo.customMapping.value
  }

  /** The address of element (x, y) in an nx-by-ny grid under `topo`. */
  function Resolve(topo: HardwareTopology, nx: nat, ny: nat, x: nat, y: nat): (h: HardwareAddress)
    requires topo.elementsPerChip >= 1
    ensures var l := LinearIndex(topo.mappingOrder, nx, ny, x, y);
      !HasCustomEntry(topo, x, y) ==>
        && h.chipId * topo.elementsPerChip + h.portId == l
        && 0 <= h.portId < topo.elementsPerChip
        && h.elementId == l
    ensures HasCustomEntry(topo, x, y) ==>
      var e := topo.customMapping.value[(x as int, y as int)];
      && h.chipId == e.chipId && h.portId == e.portId
      && h.elementId == (if e.elementId.Some? then e.elementId.value else LinearIndex(topo.mappingOrder, nx, ny, x, y))
  {
    var l := LinearIndex(topo.mappingOrder, nx, ny, x, y);
    if HasCustomEntry(topo, x, y) then
      var e := topo.customMapping.value[(x as int, y as int)];
      HardwareAddress(e.chipId, e.portId, if e.elementId.Some? then e.elementId.value else l)
    else
      UniformAddress(l, topo.elementsPerChip)
  }

  lemma RowStep(nx: nat, x: nat, y: nat, ny: nat)
    requires x < nx && y < ny
    ensures 0 <= y * nx + x < nx * ny
  {
    assert y * nx + x < y * nx + nx == (y + 1) * nx;
    assert (y + 1) * nx <= ny * nx;
  }

  /** Inside the grid, the linear index lies in [0, nx*ny). */
  lemma LinearIndexInRange(order: MappingOrder, nx: nat, ny: nat, x: nat, y: nat)
    requires x < nx && y < ny
    ensures 0 <= LinearIndex(order, nx, ny, x, y) < nx * ny
  {
    if order == ColMajor {
      RowStep(ny, y, x, nx);
    } else {
      RowStep(nx, x, y, ny);
    }
  }

  /** Numbering the grid and reading the number back gives the element again. */
  lemma GridPositionOfLinearIndex(order: MappingOrder, nx: nat, ny: nat, x: nat, y: nat)
    requires x < nx && y < ny
    ensures GridPosition(order, nx, ny, LinearIndex(order, nx, ny, x, y) as nat) == (x, y)
  {
    LinearIndexInRange(order, nx, ny, x, y);
    if order == ColMajor {
      DivModUnique(x * ny + y, ny, x, y);
    } else {
      DivModUnique(y * nx + x, nx, y, x);
    }
  }

  /** Every index in [0, nx*ny) numbers exactly one element of the grid. */
  lemma LinearIndexOfGridPosition(order: MappingOrder, nx: nat, ny: nat, l: nat)
    requires l < nx * ny
    ensures nx > 0 && ny > 0
    ensures var p := GridPosition(order, nx, ny, l);
      && p.0 < nx && p.1 < ny
      && LinearIndex(order, nx, ny, p.0, p.1) == l
  {
    if order == ColMajor {
      QuotientBelow(l, ny, nx);
    } else {
      QuotientBelow(l, nx, ny);
    }
  }

  lemma DivModUnique(n: nat, d: nat, q: nat, r: nat)
    requires d > 0 && r < d && n == q * d + r
    ensures n / d == q && n % d == r
  {
    var q', r' := n / d, n % d;
    assert q' * d + r' == n;
    if q' < q {
      FactorBelow(q', q, d);
    } else if q < q' {
      FactorBelow(q, q', d);
    }
  }

  /** A smaller factor leaves a gap of at least one whole `d`. */
  lemma FactorBelow(a: nat, b: nat, d: nat)
    requires a < b
    ensures a * d + d <= b * d
  {
    var k := b - a;
    FactorAtMost(1, k, d);
    assert b * d == (a + k) * d == a * d + k * d;
  }

  lemma QuotientBelow(l: nat, d: nat, e: nat)
    requires l < d * e
    ensures d > 0 && e > 0 && l / d < e
  {
    assert d != 0 && e != 0;
    var q := l / d;
    assert q * d <= l;
    if e <= q {
      FactorAtMost(e, q, d);
    }
  }

  lemma FactorAtMost(a: nat, b: nat, d: nat)
    requires a <= b
    ensures a * d <= b * d
  {
  }

  /** Under row- or column-major numbering, distinct elements of the grid get
      distinct linear indices, and so distinct (chip, port) pairs. */
  lemma UniformWiringInjective(topo: HardwareTopology, nx: nat, ny: nat, x1: nat, y1: nat, x2: nat, y2: nat)
    requires topo.elementsPerChip >= 1 && topo.mappingOrder != Custom
    requires x1 < nx && y1 < ny && x2 < nx && y2 < ny && (x1, y1) != (x2, y2)
    ensures var a := Resolve(topo, nx, ny, x1, y1);
      var b := Resolve(topo, nx, ny, x2, y2);
      a.elementId != b.elementId && (a.chipId, a.portId) != (b.chipId, b.portId)
  {
    var order := topo.mappingOrder;
    GridPositionOfLinearIndex(order, nx, ny, x1, y1);
    GridPositionOfLinearIndex(order, nx, ny, x2, y2);
  }

  /** A 4 x 2 column-major array with four ports per chip wires element (1, 1) to
      linear index 3: chip 0, port 3. */
  lemma ColumnMajorExample()
    ensures Resolve(HardwareTopology(4, ColMajor, None), 4, 2, 1, 1) == HardwareAddress(0, 3, 3)
  {
  }
}
