/** What a diagram shows: exactly the resources it should, each in the colour of the overlay. */
module DiagramContents {
  import opened Prelude
  import opened Ordering
  import opened CellIds
  import opened Overlay
  import opened Fixtures
  import opened Diagram

  function Ids(cells: seq<Cell>): set<CellId> {
    set c | c in cells :: c.id
  }

  lemma IdsJoin(s: seq<Cell>, t: seq<Cell>)
    ensures Ids(s + t) == Ids(s) + Ids(t)
  {
  }

  lemma {:induction false} RowIds(slots: seq<Slot>, x: int, gap: int)
    ensures forall id :: id in Ids(Row(slots, x, gap)) <==> exists s :: s in slots && s.id == id
  {
    if |slots| > 0 {
      var init, last := slots[..|slots| - 1], slots[|slots| - 1];
      assert slots == init + [last];
      RowIds(init, x, gap);
      IdsJoin(Row(init, x, gap), [PlaceAt(last, RowEnd(init, x, gap))]);
    }
  }

  // ---------------------------------------------------------------- what belongs on the page

  ghost predicate IsOrphan(pips: seq<PipDef>, name: string) {
    exists p :: p in pips && !p.attached && PipRid(p) == name
  }

  ghost predicate HasVNet(fx: Fixture, name: string) {
    exists v :: v in fx.vnets && v.name == name
  }

  ghost predicate HasSubnet(fx: Fixture, key: string) {
    exists v, sn :: v in fx.vnets && sn in v.subnets && key == SubnetKey(v.name, sn)
  }

  ghost predicate HasNic(fx: Fixture, name: string) {
    exists n :: n in fx.nics && NicRid(n) == name && HasSubnet(fx, n.subnet)
  }

  ghost predicate Belongs(fx: Fixture, level: Level, stubs: seq<string>, id: CellId) {
    match id
    case Root => false
    case Edge(_, _) => false
    case Internet => DrawsInternet(fx)
    case Legend => true
    case AppLabel => |AppItems(fx)| > 0
    case Node(kind, name) =>
      match kind
      case Fw => fx.firewall == Some(name)
      case Gw => name in fx.gateways
      case Er => name in fx.circuits
      case NatGw => name in fx.natGateways
      case Pip => IsOrphan(fx.pips, name)
      case Vnet => HasVNet(fx, name)
      case Subnet => level.Mld? && HasSubnet(fx, name)
      case Nic => level.Mld? && HasNic(fx, name)
      case Ext => name in stubs
      case _ => exists a :: a in AppItems(fx) && AppId(a) == id
  }

  // ---------------------------------------------------------------- the boundary row

  ghost predicate SlotFor(slots: seq<Slot>, id: CellId) {
    exists s :: s in slots && s.id == id
  }

  lemma SlotForJoin(s: seq<Slot>, t: seq<Slot>, id: CellId)
    ensures SlotFor(s + t, id) <==> SlotFor(s, id) || SlotFor(t, id)
  {
    if SlotFor(s, id) {
      var x :| x in s && x.id == id;
      assert x in s + t;
    }
    if SlotFor(t, id) {
      var x :| x in t && x.id == id;
      assert x in s + t;
    }
  }

  lemma {:induction false} OrphanSlotFor(pips: seq<PipDef>, overlay: OverlayMap, id: CellId)
    ensures SlotFor(OrphanSlots(pips, overlay), id) <==> id.Node? && id.kind.Pip? && IsOrphan(pips, id.name)
  {
    if |pips| > 0 {
      var init, last := pips[..|pips| - 1], pips[|pips| - 1];
      OrphanSlotFor(init, overlay, id);
      if id.Node? {
        OrphanOneMore(init, last, id.name);
        assert pips == init + [last];
      }
      if !last.attached {
        var slot := Slot(Node(Pip, PipRid(last)), BOUNDARY_Y, 150, 70, Painted(SeverityOf(overlay, Node(Pip, PipRid(last)))));
        SlotForJoin(OrphanSlots(init, overlay), [slot], id);
        assert slot in [slot];
      }
    }
  }

  lemma OrphanOneMore(pips: seq<PipDef>, p: PipDef, name: string)
    ensures IsOrphan(pips + [p], name) <==> IsOrphan(pips, name) || (!p.attached && PipRid(p) == name)
  {
    if IsOrphan(pips, name) {
      var q :| q in pips && !q.attached && PipRid(q) == name;
      assert q in pips + [p];
    }
    assert p in pips + [p];
  }

  lemma NamedSlotFor(kind: Kind, names: seq<string>, w: int, id: CellId)
    ensures SlotFor(NamedSlots(kind, names, w), id) <==> id.Node? && id.kind == kind && id.name in names
  {
    if id.Node? && id.kind == kind && id.name in names {
      var i :| 0 <= i < |names| && names[i] == id.name;
      assert NamedSlots(kind, names, w)[i].id == id;
    }
  }

  ghost predicate OnBoundary(fx: Fixture, id: CellId) {
    match id
    case Internet => DrawsInternet(fx)
    case Node(Fw, name) => fx.firewall == Some(name)
    case Node(Gw, name) => name in fx.gateways
    case Node(Er, name) => name in fx.circuits
    case Node(NatGw, name) => name in fx.natGateways
    case Node(Pip, name) => IsOrphan(fx.pips, name)
    case _ => false
  }

  lemma SlotForAny(a: seq<Slot>, b: seq<Slot>, c: seq<Slot>, d: seq<Slot>, e: seq<Slot>, f: seq<Slot>, id: CellId)
    ensures SlotFor(a + b + c + d + e + f, id) <==>
            SlotFor(a, id) || SlotFor(b, id) || SlotFor(c, id) || SlotFor(d, id) || SlotFor(e, id) || SlotFor(f, id)
  {
    SlotForJoin(a, b, id);
    SlotForJoin(a + b, c, id);
    SlotForJoin(a + b + c, d, id);
    SlotForJoin(a + b + c + d, e, id);
    SlotForJoin(a + b + c + d + e, f, id);
  }

  lemma IngressSlotFor(fx: Fixture, id: CellId)
    ensures SlotFor(InternetSlot(fx), id) <==> DrawsInternet(fx) && id == Internet
    ensures SlotFor(FirewallSlot(fx), id) <==> fx.firewall.Some? && id == Node(Fw, fx.firewall.value)
  {
    if DrawsInternet(fx) {
      assert InternetSlot(fx)[0].id == Internet;
    }
    if fx.firewall.Some? {
      assert FirewallSlot(fx)[0].id == Node(Fw, fx.firewall.value);
    }
  }

  lemma BoundarySlotFor(fx: Fixture, overlay: OverlayMap, id: CellId)
    ensures SlotFor(BoundarySlots(fx, overlay), id) <==> OnBoundary(fx, id)
  {
    var gw, er, ng := NamedSlots(Gw, fx.gateways, 140), NamedSlots(Er, fx.circuits, 150), NamedSlots(NatGw, fx.natGateways, 130);
    SlotForAny(InternetSlot(fx), FirewallSlot(fx), gw, er, ng, OrphanSlots(fx.pips, overlay), id);
    IngressSlotFor(fx, id);
    NamedSlotFor(Gw, fx.gateways, 140, id);
    NamedSlotFor(Er, fx.circuits, 150, id);
    NamedSlotFor(NatGw, fx.natGateways, 130, id);
    OrphanSlotFor(fx.pips, overlay, id);
  }

  lemma RowShows(slots: seq<Slot>, x: int, gap: int, id: CellId)
    ensures id in Ids(Row(slots, x, gap)) <==> SlotFor(slots, id)
  {
    RowIds(slots, x, gap);
  }

  // ---------------------------------------------------------------- the VNet row

  lemma ColumnShows(inside: seq<NicDef>, subnet: CellId, overlay: OverlayMap, id: CellId)
    ensures id in Ids(NicColumn(inside, subnet, overlay)) <==> exists n :: n in inside && id == Node(Nic, NicRid(n))
  {
    var column := NicColumn(inside, subnet, overlay);
    if n :| n in inside && id == Node(Nic, NicRid(n)) {
      var k :| 0 <= k < |inside| && inside[k] == n;
      assert column[k].id == id;
    }
    if id in Ids(column) {
      var c :| c in column && c.id == id;
      var k :| 0 <= k < |inside| && c == NicCell(inside[k], subnet, k, overlay);
      assert inside[k] in inside;
    }
  }

  lemma ColumnIds(nics: seq<NicDef>, key: string, subnet: CellId, overlay: OverlayMap, id: CellId)
    ensures id in Ids(NicColumn(NicsIn(nics, key), subnet, overlay))
       <==> exists n :: n in nics && n.subnet == key && id == Node(Nic, NicRid(n))
  {
    NicsInMembers(nics, key);
    ColumnShows(NicsIn(nics, key), subnet, overlay, id);
  }

  ghost predicate InBlock(nics: seq<NicDef>, key: string, id: CellId) {
    id == Node(Subnet, key) || exists n :: n in nics && n.subnet == key && id == Node(Nic, NicRid(n))
  }

  lemma BlockIds(nics: seq<NicDef>, v: string, sn: string, y: int, overlay: OverlayMap, id: CellId)
    ensures id in Ids(SubnetBlock(nics, v, sn, y, overlay)) <==> InBlock(nics, SubnetKey(v, sn), id)
  {
    var key := SubnetKey(v, sn);
    ColumnIds(nics, key, Node(Subnet, key), overlay, id);
    IdsJoin([SubnetCell(nics, v, sn, y)], NicColumn(NicsIn(nics, key), Node(Subnet, key), overlay));
  }

  lemma {:induction false} BlocksIds(nics: seq<NicDef>, v: string, subnets: seq<string>, overlay: OverlayMap, id: CellId)
    ensures id in Ids(SubnetBlocks(nics, v, subnets, overlay))
       <==> exists sn :: sn in subnets && InBlock(nics, SubnetKey(v, sn), id)
  {
    if |subnets| > 0 {
      var init, sn := subnets[..|subnets| - 1], subnets[|subnets| - 1];
      assert subnets == init + [sn];
      var y := SubnetY(nics, v, init);
      BlocksIds(nics, v, init, overlay, id);
      BlockIds(nics, v, sn, y, overlay, id);
      IdsJoin(SubnetBlocks(nics, v, init, overlay), SubnetBlock(nics, v, sn, y, overlay));
      if id in Ids(SubnetBlocks(nics, v, init, overlay)) {
        var t :| t in init && InBlock(nics, SubnetKey(v, t), id);
        assert t in subnets;
      }
    }
  }

  ghost predicate InVNetBlock(fx: Fixture, v: VNet, level: Level, id: CellId) {
    id == Node(Vnet, v.name) || (level.Mld? && exists sn :: sn in v.subnets && InBlock(fx.nics, SubnetKey(v.name, sn), id))
  }

  lemma VNetBlockIds(fx: Fixture, v: VNet, level: Level, x: int, overlay: OverlayMap, id: CellId)
    ensures id in Ids(VNetBlock(fx, v, level, x, overlay)) <==> InVNetBlock(fx, v, level, id)
  {
    if level.Mld? {
      BlocksIds(fx.nics, v.name, v.subnets, overlay, id);
      IdsJoin([VNetCell(fx, v, level, x, overlay)], SubnetBlocks(fx.nics, v.name, v.subnets, overlay));
    }
  }

  lemma {:induction false} VNetsIds(fx: Fixture, vs: seq<VNet>, level: Level, overlay: OverlayMap, id: CellId)
    ensures id in Ids(VNetBlocks(fx, vs, level, overlay)) <==> exists v :: v in vs && InVNetBlock(fx, v, level, id)
  {
    if |vs| > 0 {
      var init, v := vs[..|vs| - 1], vs[|vs| - 1];
      assert vs == init + [v];
      VNetsIds(fx, init, level, overlay, id);
      VNetBlockIds(fx, v, level, VNetX(|init|), overlay, id);
      IdsJoin(VNetBlocks(fx, init, level, overlay), VNetBlock(fx, v, level, VNetX(|init|), overlay));
      if id in Ids(VNetBlocks(fx, init, level, overlay)) {
        var u :| u in init && InVNetBlock(fx, u, level, id);
        assert u in vs;
      }
    }
  }

  ghost predicate InRow(fx: Fixture, level: Level, id: CellId) {
    match id
    case Node(Vnet, name) => HasVNet(fx, name)
    case Node(Subnet, name) => level.Mld? && HasSubnet(fx, name)
    case Node(Nic, name) => level.Mld? && HasNic(fx, name)
    case _ => false
  }

  lemma VNetBlockInRow(fx: Fixture, v: VNet, level: Level, id: CellId)
    requires v in fx.vnets && InVNetBlock(fx, v, level, id)
    ensures InRow(fx, level, id)
  {
    if id != Node(Vnet, v.name) {
      var sn :| sn in v.subnets && InBlock(fx.nics, SubnetKey(v.name, sn), id);
      assert HasSubnet(fx, SubnetKey(v.name, sn));
      if id != Node(Subnet, SubnetKey(v.name, sn)) {
        var n :| n in fx.nics && n.subnet == SubnetKey(v.name, sn) && id == Node(Nic, NicRid(n));
        assert HasNic(fx, NicRid(n));
      }
    }
  }

  lemma InRowInVNetBlock(fx: Fixture, level: Level, id: CellId) returns (v: VNet)
    requires InRow(fx, level, id)
    ensures v in fx.vnets && InVNetBlock(fx, v, level, id)
  {
    if id.kind.Vnet? {
      v :| v in fx.vnets && v.name == id.name;
    } else if id.kind.Subnet? {
      var sn;
      v, sn :| v in fx.vnets && sn in v.subnets && id.name == SubnetKey(v.name, sn);
      assert InBlock(fx.nics, SubnetKey(v.name, sn), id);
    } else {
      var n :| n in fx.nics && NicRid(n) == id.name && HasSubnet(fx, n.subnet);
      var sn;
      v, sn :| v in fx.vnets && sn in v.subnets && n.subnet == SubnetKey(v.name, sn);
      assert InBlock(fx.nics, SubnetKey(v.name, sn), id);
    }
  }

  lemma VNetRowShows(fx: Fixture, level: Level, overlay: OverlayMap, id: CellId)
    ensures id in Ids(VNetBlocks(fx, Ordered(fx.vnets), level, overlay)) <==> InRow(fx, level, id)
  {
    var vs := Ordered(fx.vnets);
    SameElements(fx.vnets, vs);
    VNetsIds(fx, vs, level, overlay, id);
    if exists v :: v in vs && InVNetBlock(fx, v, level, id) {
      var v :| v in vs && InVNetBlock(fx, v, level, id);
      VNetBlockInRow(fx, v, level, id);
    }
    if InRow(fx, level, id) {
      var v := InRowInVNetBlock(fx, level, id);
      assert v in vs;
    }
  }

  // ---------------------------------------------------------------- the rest of the page

  lemma StubsShow(stubs: seq<string>, y: int, id: CellId)
    ensures id in Ids(Row(StubSlots(stubs, y), 40, 40)) <==> id.Node? && id.kind.Ext? && id.name in stubs
  {
    RowShows(StubSlots(stubs, y), 40, 40, id);
    if id.Node? && id.kind.Ext? && id.name in stubs {
      var i :| 0 <= i < |stubs| && stubs[i] == id.name;
      assert StubSlots(stubs, y)[i].id == id;
    }
  }

  ghost predicate InBand(fx: Fixture, id: CellId) {
    (id == AppLabel && |AppItems(fx)| > 0) || exists a :: a in AppItems(fx) && AppId(a) == id
  }

  lemma AppSlotFor(items: seq<AppItem>, y: int, overlay: OverlayMap, id: CellId)
    ensures SlotFor(AppSlots(items, y, overlay), id) <==> exists a :: a in items && AppId(a) == id
  {
    var slots := AppSlots(items, y, overlay);
    if exists a :: a in items && AppId(a) == id {
      var i :| 0 <= i < |items| && AppId(items[i]) == id;
      assert slots[i].id == id;
    }
    if SlotFor(slots, id) {
      var s :| s in slots && s.id == id;
      var i :| 0 <= i < |items| && slots[i] == s;
      assert items[i] in items;
    }
  }

  lemma AppBandShows(fx: Fixture, level: Level, stubs: seq<string>, overlay: OverlayMap, id: CellId)
    ensures id in Ids(AppBand(fx, level, stubs, overlay)) <==> InBand(fx, id)
  {
    var items, y := AppItems(fx), AppY(fx, level, stubs);
    AppSlotFor(items, y, overlay, id);
    if |items| > 0 {
      var title, slots := [BandTitle(y)], AppSlots(items, y, overlay);
      IdsJoin(title, Row(slots, 40, 30));
      RowShows(slots, 40, 30, id);
    }
  }

  /** The cells placed before the application band. */
  function Placed(fx: Fixture, level: Level, overlay: OverlayMap, stubs: seq<string>): seq<Cell> {
    Row(BoundarySlots(fx, overlay), 40, GAP_X)
    + VNetBlocks(fx, Ordered(fx.vnets), level, overlay)
    + Row(StubSlots(stubs, StubY(fx, level)), 40, 40)
  }

  ghost predicate IsPlaced(fx: Fixture, level: Level, stubs: seq<string>, id: CellId) {
    OnBoundary(fx, id) || InRow(fx, level, id) || (id.Node? && id.kind.Ext? && id.name in stubs)
  }

  lemma WhatIsPlaced(fx: Fixture, level: Level, overlay: OverlayMap, stubs: seq<string>, id: CellId)
    ensures id in Ids(Placed(fx, level, overlay, stubs)) <==> IsPlaced(fx, level, stubs, id)
  {
    var top, row, out := Row(BoundarySlots(fx, overlay), 40, GAP_X), VNetBlocks(fx, Ordered(fx.vnets), level, overlay),
                         Row(StubSlots(stubs, StubY(fx, level)), 40, 40);
    IdsJoin(top, row);
    IdsJoin(top + row, out);
    RowShows(BoundarySlots(fx, overlay), 40, GAP_X, id);
    BoundarySlotFor(fx, overlay, id);
    VNetRowShows(fx, level, overlay, id);
    StubsShow(stubs, StubY(fx, level), id);
  }

  lemma BelongsInParts(fx: Fixture, level: Level, stubs: seq<string>, id: CellId)
    ensures Belongs(fx, level, stubs, id) <==> IsPlaced(fx, level, stubs, id) || InBand(fx, id) || id == Legend
  {
    AppItemKinds(fx);
  }

  /** A diagram shows exactly what belongs on it: nothing is dropped and nothing invented. */
  lemma WhatIsDrawn(fx: Fixture, level: Level, overlay: OverlayMap, stubs: seq<string>, id: CellId)
    ensures id in Ids(Cells(fx, level, overlay, stubs)) <==> Belongs(fx, level, stubs, id)
  {
    var placed, band := Placed(fx, level, overlay, stubs), AppBand(fx, level, stubs, overlay);
    IdsJoin(placed, band);
    IdsJoin(placed + band, [LegendCell(fx, overlay)]);
    WhatIsPlaced(fx, level, overlay, stubs, id);
    AppBandShows(fx, level, stubs, overlay, id);
    BelongsInParts(fx, level, stubs, id);
  }

  // ---------------------------------------------------------------- colours

  function ColourOf(fx: Fixture, overlay: OverlayMap, id: CellId): Paint {
    match id
    case Node(kind, name) => (
      match kind
      case Nic => Painted(SeverityOf(overlay, id))
      case Pip => Painted(SeverityOf(overlay, id))
      case AppGw => Painted(SeverityOf(overlay, id))
      case Aks => Painted(SeverityOf(overlay, id))
      case Pe => Painted(SeverityOf(overlay, id))
      case Apim => Painted(SeverityOf(overlay, id))
      case Fd => Painted(SeverityOf(overlay, id))
      case Vhub => Painted(SeverityOf(overlay, id))
      case Vnet => Painted(Rollup(fx.nics, name, overlay))
      case _ => Grey)
    case _ => Grey
  }

  ghost predicate Coloured(cells: seq<Cell>, fx: Fixture, overlay: OverlayMap) {
    forall c :: c in cells ==> c.paint == ColourOf(fx, overlay, c.id)
  }

  lemma ColouredJoin(s: seq<Cell>, t: seq<Cell>, fx: Fixture, overlay: OverlayMap)
    requires Coloured(s, fx, overlay) && Coloured(t, fx, overlay)
    ensures Coloured(s + t, fx, overlay)
  {
  }

  lemma ColouredParts(a: seq<Cell>, b: seq<Cell>, c: seq<Cell>, d: seq<Cell>, e: seq<Cell>, fx: Fixture, overlay: OverlayMap)
    requires Coloured(a, fx, overlay) && Coloured(b, fx, overlay) && Coloured(c, fx, overlay)
    requires Coloured(d, fx, overlay) && Coloured(e, fx, overlay)
    ensures Coloured(a + b + c + d + e, fx, overlay)
  {
    ColouredJoin(a, b, fx, overlay);
    ColouredJoin(a + b, c, fx, overlay);
    ColouredJoin(a + b + c, d, fx, overlay);
    ColouredJoin(a + b + c + d, e, fx, overlay);
  }

  lemma {:induction false} RowColoured(slots: seq<Slot>, x: int, gap: int, fx: Fixture, overlay: OverlayMap)
    requires forall s :: s in slots ==> s.paint == ColourOf(fx, overlay, s.id)
    ensures Coloured(Row(slots, x, gap), fx, overlay)
  {
    if |slots| > 0 {
      var init, last := slots[..|slots| - 1], slots[|slots| - 1];
      assert slots == init + [last];
      RowColoured(init, x, gap, fx, overlay);
      assert last in slots;
    }
  }

  lemma {:induction false} OrphansColoured(pips: seq<PipDef>, fx: Fixture, overlay: OverlayMap)
    ensures forall s :: s in OrphanSlots(pips, overlay) ==> s.paint == ColourOf(fx, overlay, s.id)
  {
    if |pips| > 0 {
      OrphansColoured(pips[..|pips| - 1], fx, overlay);
    }
  }

  lemma BoundaryColoured(fx: Fixture, overlay: OverlayMap)
    ensures Coloured(Row(BoundarySlots(fx, overlay), 40, GAP_X), fx, overlay)
  {
    OrphansColoured(fx.pips, fx, overlay);
    RowColoured(BoundarySlots(fx, overlay), 40, GAP_X, fx, overlay);
  }

  lemma {:induction false} SubnetsColoured(fx: Fixture, v: string, subnets: seq<string>, overlay: OverlayMap)
    ensures Coloured(SubnetBlocks(fx.nics, v, subnets, overlay), fx, overlay)
  {
    if |subnets| > 0 {
      SubnetsColoured(fx, v, subnets[..|subnets| - 1], overlay);
    }
  }

  lemma {:induction false} VNetsColoured(fx: Fixture, vs: seq<VNet>, level: Level, overlay: OverlayMap)
    ensures Coloured(VNetBlocks(fx, vs, level, overlay), fx, overlay)
  {
    if |vs| > 0 {
      var init, v := vs[..|vs| - 1], vs[|vs| - 1];
      VNetsColoured(fx, init, level, overlay);
      SubnetsColoured(fx, v.name, v.subnets, overlay);
    }
  }

  lemma AppItemColour(fx: Fixture, a: AppItem, overlay: OverlayMap)
    requires IsAppKind(a.kind)
    ensures AppPaint(a, overlay) == ColourOf(fx, overlay, AppId(a))
  {
  }

  lemma BandColoured(fx: Fixture, level: Level, stubs: seq<string>, overlay: OverlayMap)
    ensures Coloured(AppBand(fx, level, stubs, overlay), fx, overlay)
  {
    var items, slots := AppItems(fx), AppSlots(AppItems(fx), AppY(fx, level, stubs), overlay);
    AppItemKinds(fx);
    forall s | s in slots ensures s.paint == ColourOf(fx, overlay, s.id) {
      var i :| 0 <= i < |slots| && slots[i] == s;
      assert items[i] in items;
      AppItemColour(fx, items[i], overlay);
    }
    RowColoured(slots, 40, 30, fx, overlay);
  }

  lemma LegendColoured(fx: Fixture, overlay: OverlayMap)
    ensures Coloured([LegendCell(fx, overlay)], fx, overlay)
  {
  }

  lemma StubsColoured(fx: Fixture, level: Level, overlay: OverlayMap, stubs: seq<string>)
    ensures Coloured(Row(StubSlots(stubs, StubY(fx, level)), 40, 40), fx, overlay)
  {
    RowColoured(StubSlots(stubs, StubY(fx, level)), 40, 40, fx, overlay);
  }

  /** Colour is decided by the overlay alone for every scored resource, and by the rollup for a VNet. */
  lemma EveryCellIsColoured(fx: Fixture, level: Level, overlay: OverlayMap, stubs: seq<string>)
    ensures Coloured(Cells(fx, level, overlay, stubs), fx, overlay)
  {
    var top, row, out := Row(BoundarySlots(fx, overlay), 40, GAP_X), VNetBlocks(fx, Ordered(fx.vnets), level, overlay),
                         Row(StubSlots(stubs, StubY(fx, level)), 40, 40);
    var band, legend := AppBand(fx, level, stubs, overlay), [LegendCell(fx, overlay)];
    BoundaryColoured(fx, overlay);
    VNetsColoured(fx, Ordered(fx.vnets), level, overlay);
    BandColoured(fx, level, stubs, overlay);
    LegendColoured(fx, overlay);
    StubsColoured(fx, level, overlay, stubs);
    ColouredParts(top, row, out, band, legend, fx, overlay);
  }
}
