/** The diagram builder's cells: where everything is placed and how it is painted. */
module Diagram {
  import opened Prelude
  import opened Ordering
  import opened CellIds
  import opened Overlay
  import opened Fixtures

  const VNET_W := 260
  const SUB_W := 220
  const NODE_H := 26
  const GAP_X := 120
  const BOUNDARY_Y := 40
  const VNET_Y := 220

  datatype Paint = Grey | Painted(severity: Severity)

  datatype Cell = Cell(id: CellId, parent: CellId, x: int, y: int, w: int, h: int, paint: Paint)

  datatype Level = Hld | Mld

  /** A cell of a row before its place along the row is known. */
  datatype Slot = Slot(id: CellId, y: int, w: int, h: int, paint: Paint)

  function SlotId(s: Slot): CellId {
    s.id
  }

  // ---------------------------------------------------------------- rows

  function RowEnd(slots: seq<Slot>, x: int, gap: int): int {
    if |slots| == 0 then x
    else RowEnd(slots[..|slots| - 1], x, gap) + slots[|slots| - 1].w + gap
  }

  function PlaceAt(s: Slot, x: int): Cell {
    Cell(s.id, Root, x, s.y, s.w, s.h, s.paint)
  }

  /** Slots side by side, each starting where the one before ends, plus the gap. */
  function Row(slots: seq<Slot>, x: int, gap: int): seq<Cell> {
    if |slots| == 0 then []
    else Row(slots[..|slots| - 1], x, gap) + [PlaceAt(slots[|slots| - 1], RowEnd(slots[..|slots| - 1], x, gap))]
  }

  lemma RowOneMore(slots: seq<Slot>, s: Slot, x: int, gap: int)
    ensures Row(slots + [s], x, gap) == Row(slots, x, gap) + [PlaceAt(s, RowEnd(slots, x, gap))]
    ensures RowEnd(slots + [s], x, gap) == RowEnd(slots, x, gap) + s.w + gap
  {
    assert (slots + [s])[..|slots|] == slots;
  }

  lemma AppendTwice(a: seq<Cell>, b: seq<Cell>, c: seq<Cell>)
    ensures a + b + c == a + (b + c)
  {
  }

  // ---------------------------------------------------------------- the boundary band

  predicate DrawsInternet(fx: Fixture) {
    (exists n :: n in fx.nics && n.hasPublicIp) || fx.firewall.Some?
  }

  function NamedSlots(kind: Kind, names: seq<string>, w: int): seq<Slot> {
    seq(|names|, i requires 0 <= i < |names| => Slot(Node(kind, names[i]), BOUNDARY_Y, w, 60, Grey))
  }

  function OrphanSlots(pips: seq<PipDef>, overlay: OverlayMap): seq<Slot> {
    if |pips| == 0 then []
    else
      var before, p := OrphanSlots(pips[..|pips| - 1], overlay), pips[|pips| - 1];
      if p.attached then before
      else
        var id := Node(Pip, PipRid(p));
        before + [Slot(id, BOUNDARY_Y, 150, 70, Painted(SeverityOf(overlay, id)))]
  }

  function InternetSlot(fx: Fixture): seq<Slot> {
    if DrawsInternet(fx) then [Slot(Internet, BOUNDARY_Y, 120, 60, Grey)] else []
  }

  function FirewallSlot(fx: Fixture): seq<Slot> {
    if fx.firewall.Some? then [Slot(Node(Fw, fx.firewall.value), BOUNDARY_Y, 140, 60, Grey)] else []
  }

  function BoundarySlots(fx: Fixture, overlay: OverlayMap): seq<Slot> {
    InternetSlot(fx)
    + FirewallSlot(fx)
    + NamedSlots(Gw, fx.gateways, 140)
    + NamedSlots(Er, fx.circuits, 150)
    + NamedSlots(NatGw, fx.natGateways, 130)
    + OrphanSlots(fx.pips, overlay)
  }

  // ---------------------------------------------------------------- the VNet row

  function SubnetH(nics: seq<NicDef>, key: string): int {
    26 + |NicsIn(nics, key)| * (NODE_H + 6) + 10
  }

  /** Where the next subnet of a VNet starts, below those already placed. */
  function SubnetY(nics: seq<NicDef>, v: string, subnets: seq<string>): int {
    if |subnets| == 0 then 70
    else SubnetY(nics, v, subnets[..|subnets| - 1]) + SubnetH(nics, SubnetKey(v, subnets[|subnets| - 1])) + 10
  }

  function VNetH(fx: Fixture, v: VNet, level: Level): int {
    if level.Hld? then 90
    else
      var h := SubnetY(fx.nics, v.name, v.subnets) + 10;
      if h > 90 then h else 90
  }

  function NicCell(n: NicDef, subnet: CellId, k: nat, overlay: OverlayMap): Cell {
    var id := Node(Nic, NicRid(n));
    Cell(id, subnet, 10, 26 + k * (NODE_H + 6), SUB_W - 20, NODE_H, Painted(SeverityOf(overlay, id)))
  }

  function NicColumn(nics: seq<NicDef>, subnet: CellId, overlay: OverlayMap): seq<Cell> {
    seq(|nics|, k requires 0 <= k < |nics| => NicCell(nics[k], subnet, k, overlay))
  }

  function SubnetCell(nics: seq<NicDef>, v: string, sn: string, y: int): Cell {
    Cell(Node(Subnet, SubnetKey(v, sn)), Node(Vnet, v), 20, y, SUB_W, SubnetH(nics, SubnetKey(v, sn)), Grey)
  }

  function SubnetBlock(nics: seq<NicDef>, v: string, sn: string, y: int, overlay: OverlayMap): seq<Cell> {
    [SubnetCell(nics, v, sn, y)]
    + NicColumn(NicsIn(nics, SubnetKey(v, sn)), Node(Subnet, SubnetKey(v, sn)), overlay)
  }

  function SubnetBlocks(nics: seq<NicDef>, v: string, subnets: seq<string>, overlay: OverlayMap): seq<Cell> {
    if |subnets| == 0 then []
    else
      var init, sn := subnets[..|subnets| - 1], subnets[|subnets| - 1];
      SubnetBlocks(nics, v, init, overlay) + SubnetBlock(nics, v, sn, SubnetY(nics, v, init), overlay)
  }

  /** A VNet shows the worst of its own severity and those of its network interfaces. */
  function Rollup(nics: seq<NicDef>, v: string, overlay: OverlayMap): Severity {
    if |nics| == 0 then SeverityOf(overlay, Node(Vnet, v))
    else
      var before, n := Rollup(nics[..|nics| - 1], v, overlay), nics[|nics| - 1];
      if NicVNet(n) == v then Worse(before, SeverityOf(overlay, Node(Nic, NicRid(n)))) else before
  }

  function VNetCell(fx: Fixture, v: VNet, level: Level, x: int, overlay: OverlayMap): Cell {
    Cell(Node(Vnet, v.name), Root, x, VNET_Y, VNET_W, VNetH(fx, v, level), Painted(Rollup(fx.nics, v.name, overlay)))
  }

  function VNetBlock(fx: Fixture, v: VNet, level: Level, x: int, overlay: OverlayMap): seq<Cell> {
    [VNetCell(fx, v, level, x, overlay)] + if level.Mld? then SubnetBlocks(fx.nics, v.name, v.subnets, overlay) else []
  }

  function VNetX(i: nat): int {
    40 + i * (VNET_W + GAP_X)
  }

  function VNetBlocks(fx: Fixture, vs: seq<VNet>, level: Level, overlay: OverlayMap): seq<Cell> {
    if |vs| == 0 then []
    else VNetBlocks(fx, vs[..|vs| - 1], level, overlay) + VNetBlock(fx, vs[|vs| - 1], level, VNetX(|vs| - 1), overlay)
  }

  /** The lowest edge of the VNet row. */
  function MaxBottom(fx: Fixture, vs: seq<VNet>, level: Level): int {
    if |vs| == 0 then VNET_Y
    else
      var before, b := MaxBottom(fx, vs[..|vs| - 1], level), VNET_Y + VNetH(fx, vs[|vs| - 1], level);
      if b > before then b else before
  }

  // ---------------------------------------------------------------- stubs, application band, legend

  function StubSlots(stubs: seq<string>, y: int): seq<Slot> {
    seq(|stubs|, i requires 0 <= i < |stubs| => Slot(Node(Ext, stubs[i]), y, 180, 60, Grey))
  }

  function AppPaint(a: AppItem, overlay: OverlayMap): Paint {
    if a.kind.Bastion? || a.kind.Lb? then Grey else Painted(SeverityOf(overlay, AppId(a)))
  }

  function AppSlots(items: seq<AppItem>, y: int, overlay: OverlayMap): seq<Slot> {
    seq(|items|, i requires 0 <= i < |items| => Slot(AppId(items[i]), y, 170, 54, AppPaint(items[i], overlay)))
  }

  function StubY(fx: Fixture, level: Level): int {
    MaxBottom(fx, Ordered(fx.vnets), level) + 60
  }

  function AppY(fx: Fixture, level: Level, stubs: seq<string>): int {
    if |stubs| > 0 then StubY(fx, level) + 140 else MaxBottom(fx, Ordered(fx.vnets), level) + 90
  }

  function BandTitle(y: int): Cell {
    Cell(AppLabel, Root, 40, y - 26, 320, 20, Grey)
  }

  function AppBand(fx: Fixture, level: Level, stubs: seq<string>, overlay: OverlayMap): seq<Cell> {
    var items, y := AppItems(fx), AppY(fx, level, stubs);
    if |items| == 0 then []
    else [BandTitle(y)] + Row(AppSlots(items, y, overlay), 40, 30)
  }

  function LegendCell(fx: Fixture, overlay: OverlayMap): Cell {
    var vx, bx := VNetX(|fx.vnets|), RowEnd(BoundarySlots(fx, overlay), 40, GAP_X);
    Cell(Legend, Root, (if vx > bx then vx else bx) + 40, BOUNDARY_Y, 200, 170, Grey)
  }

  /** Everything drawn, in drawing order, given the out-of-scope peers that need a stub. */
  function Cells(fx: Fixture, level: Level, overlay: OverlayMap, stubs: seq<string>): seq<Cell> {
    Row(BoundarySlots(fx, overlay), 40, GAP_X)
    + VNetBlocks(fx, Ordered(fx.vnets), level, overlay)
    + Row(StubSlots(stubs, StubY(fx, level)), 40, 40)
    + AppBand(fx, level, stubs, overlay)
    + [LegendCell(fx, overlay)]
  }

  /** What a fixture must keep to be drawn: unique names, and subnet keys that tell subnets apart where they are shown. */
  ghost predicate Drawable(fx: Fixture, level: Level) {
    UniquelyNamed(fx) && (level.Mld? ==> SubnetKeysApart(fx.vnets))
  }
}
