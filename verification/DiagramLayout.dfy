/** The layout checker accepts every diagram: nothing overlaps, and everything fits where it is put. */
module DiagramLayout {
  import opened Prelude
  import opened Ordering
  import opened CellIds
  import opened Overlay
  import opened Fixtures
  import opened Diagram
  import LayoutCheck

  // ---------------------------------------------------------------- cells that get along

  predicate Apart(a: Cell, b: Cell) {
    a.x + a.w <= b.x || b.x + b.w <= a.x || a.y + a.h <= b.y || b.y + b.h <= a.y
  }

  predicate Compatible(a: Cell, b: Cell) {
    a.id != b.id && (a.parent == b.parent ==> Apart(a, b))
  }

  ghost predicate AllCompatible(s: seq<Cell>) {
    forall i, j :: 0 <= i < j < |s| ==> Compatible(s[i], s[j])
  }

  ghost predicate CrossCompatible(s: seq<Cell>, t: seq<Cell>) {
    forall a, b :: a in s && b in t ==> Compatible(a, b)
  }

  lemma Join(s: seq<Cell>, t: seq<Cell>)
    requires AllCompatible(s) && AllCompatible(t) && CrossCompatible(s, t)
    ensures AllCompatible(s + t)
  {
    var st := s + t;
    forall i, j | 0 <= i < j < |st| ensures Compatible(st[i], st[j]) {
      if j < |s| {
        assert Compatible(s[i], s[j]);
      } else if i >= |s| {
        assert Compatible(t[i - |s|], t[j - |s|]);
      } else {
        assert st[i] in s && st[j] in t;
      }
    }
  }

  predicate Inside(c: Cell, p: Cell) {
    0 <= c.x && c.x + c.w <= p.w && 0 <= c.y && c.y + c.h <= p.h
  }

  /** `c` is on the page, or inside a parent that is `p` or one of `s`. */
  ghost predicate HousedIn(c: Cell, s: seq<Cell>, outer: seq<Cell>) {
    c.parent == Root || exists p :: (p in s || p in outer) && p.id == c.parent && Inside(c, p)
  }

  ghost predicate Housed(s: seq<Cell>, outer: seq<Cell>) {
    forall c :: c in s ==> HousedIn(c, s, outer)
  }

  lemma HousedJoin(s: seq<Cell>, t: seq<Cell>, outer: seq<Cell>)
    requires Housed(s, outer) && Housed(t, outer)
    ensures Housed(s + t, outer)
  {
    forall c | c in s + t ensures HousedIn(c, s + t, outer) {
      var u := if c in s then s else t;
      assert HousedIn(c, u, outer);
      if c.parent != Root {
        var p :| (p in u || p in outer) && p.id == c.parent && Inside(c, p);
        assert p in s + t || p in outer;
      }
    }
  }

  lemma HousedAfter(s: seq<Cell>, outer: seq<Cell>)
    requires Housed(s, outer) && Housed(outer, [])
    ensures Housed(outer + s, [])
  {
    forall c | c in outer + s ensures HousedIn(c, outer + s, []) {
      if c.parent != Root {
        if c in s {
          assert HousedIn(c, s, outer);
          var p :| (p in s || p in outer) && p.id == c.parent && Inside(c, p);
          assert p in outer + s;
        } else {
          assert HousedIn(c, outer, []);
          var p :| p in outer && p.id == c.parent && Inside(c, p);
          assert p in outer + s;
        }
      }
    }
  }

  // ---------------------------------------------------------------- rows

  function SlotOf(c: Cell): Slot {
    Slot(c.id, c.y, c.w, c.h, c.paint)
  }

  ghost predicate Widths(slots: seq<Slot>) {
    forall s :: s in slots ==> s.w >= 0
  }

  ghost predicate WithinRow(c: Cell, slots: seq<Slot>, x: int, gap: int) {
    c.parent == Root && SlotOf(c) in slots && x <= c.x && c.x + c.w + gap <= RowEnd(slots, x, gap)
  }

  lemma {:induction false} RowMembers(slots: seq<Slot>, x: int, gap: nat)
    requires Widths(slots)
    ensures RowEnd(slots, x, gap) >= x
    ensures forall c :: c in Row(slots, x, gap) ==> WithinRow(c, slots, x, gap)
  {
    if |slots| > 0 {
      var init, last := slots[..|slots| - 1], slots[|slots| - 1];
      assert slots == init + [last];
      assert last in slots;
      RowMembers(init, x, gap);
      forall c | c in Row(slots, x, gap) ensures WithinRow(c, slots, x, gap) {
        if c in Row(init, x, gap) {
          assert WithinRow(c, init, x, gap);
        } else {
          assert c == PlaceAt(last, RowEnd(init, x, gap));
          assert SlotOf(c) == last;
        }
      }
    }
  }

  /** Things placed side by side never overlap, whatever their widths. */
  lemma {:induction false} RowCompatible(slots: seq<Slot>, x: int, gap: nat)
    requires Widths(slots) && KeysDistinct(SlotId, slots)
    ensures AllCompatible(Row(slots, x, gap))
  {
    if |slots| > 0 {
      var init, last := slots[..|slots| - 1], slots[|slots| - 1];
      assert slots == init + [last];
      RowCompatible(init, x, gap);
      RowMembers(init, x, gap);
      var cells, c := Row(init, x, gap), PlaceAt(last, RowEnd(init, x, gap));
      forall a, b | a in cells && b in [c] ensures Compatible(a, b) {
        assert WithinRow(a, init, x, gap);
        var i :| 0 <= i < |init| && init[i] == SlotOf(a);
        assert SlotId(slots[i]) != SlotId(slots[|slots| - 1]);
      }
      Join(cells, [c]);
    }
  }

  lemma RowHoused(slots: seq<Slot>, x: int, gap: nat)
    requires Widths(slots)
    ensures Housed(Row(slots, x, gap), [])
  {
    RowMembers(slots, x, gap);
  }

  // ---------------------------------------------------------------- bands

  function Band(id: CellId): int {
    match id
    case Root => -1
    case Internet => 0
    case Legend => 1
    case AppLabel => 4
    case Edge(_, _) => 6
    case Node(kind, _) =>
      match kind
      case Fw => 0 case Gw => 0 case Er => 0 case NatGw => 0 case Pip => 0
      case Vnet => 2 case Subnet => 2 case Nic => 2
      case Ext => 3
      case _ => 5
  }

  ghost predicate Spans(s: seq<Cell>, lo: int, hi: int, top: int, bottom: int) {
    forall c :: c in s ==>
      && lo <= Band(c.id) <= hi
      && (if c.parent == Root then top <= c.y && c.y + c.h <= bottom else Band(c.id) == 2)
  }

  lemma Stack(s: seq<Cell>, lo: int, hi: int, top: int, bottom: int, t: seq<Cell>, lo': int, hi': int, top': int, bottom': int)
    requires AllCompatible(s) && Spans(s, lo, hi, top, bottom)
    requires AllCompatible(t) && Spans(t, lo', hi', top', bottom')
    requires lo <= hi < lo' <= hi' && bottom <= top' && top <= top' && bottom <= bottom'
    ensures AllCompatible(s + t) && Spans(s + t, lo, hi', top, bottom')
  {
    Join(s, t);
  }

  lemma RowSpans(slots: seq<Slot>, x: int, gap: nat, band: int, top: int, bottom: int)
    requires Widths(slots)
    requires forall s :: s in slots ==> Band(s.id) == band && top <= s.y && s.y + s.h <= bottom
    ensures Spans(Row(slots, x, gap), band, band, top, bottom)
  {
    RowMembers(slots, x, gap);
    forall c | c in Row(slots, x, gap)
      ensures Band(c.id) == band && c.parent == Root && top <= c.y && c.y + c.h <= bottom
    {
      assert WithinRow(c, slots, x, gap);
      assert SlotOf(c) in slots;
    }
  }

  // ---------------------------------------------------------------- the boundary row

  lemma {:induction false} OrphansAre(pips: seq<PipDef>, overlay: OverlayMap)
    ensures forall s :: s in OrphanSlots(pips, overlay) ==>
              s.y == 40 && s.w == 150 && s.h == 70 && exists p :: p in pips && s.id == Node(Pip, PipRid(p))
  {
    if |pips| > 0 {
      var init, last := pips[..|pips| - 1], pips[|pips| - 1];
      assert pips == init + [last];
      OrphansAre(init, overlay);
      forall s | s in OrphanSlots(pips, overlay)
        ensures s.y == 40 && s.w == 150 && s.h == 70 && exists p :: p in pips && s.id == Node(Pip, PipRid(p))
      {
        if s in OrphanSlots(init, overlay) {
          var p :| p in init && s.id == Node(Pip, PipRid(p));
          assert p in pips;
        } else {
          assert s.id == Node(Pip, PipRid(last)) && last in pips;
        }
      }
    }
  }

  lemma {:induction false} OrphansDistinct(pips: seq<PipDef>, overlay: OverlayMap)
    requires KeysDistinct(PipRid, pips)
    ensures KeysDistinct(SlotId, OrphanSlots(pips, overlay))
  {
    if |pips| > 0 {
      var init, last := pips[..|pips| - 1], pips[|pips| - 1];
      OrphansDistinct(init, overlay);
      OrphansAre(init, overlay);
      var before := OrphanSlots(init, overlay);
      forall i | 0 <= i < |before| ensures SlotId(before[i]) != Node(Pip, PipRid(last)) {
        assert before[i] in before;
        var p :| p in init && before[i].id == Node(Pip, PipRid(p));
        var k :| 0 <= k < |init| && init[k] == p;
        assert PipRid(pips[k]) != PipRid(pips[|pips| - 1]);
      }
    }
  }

  /** The kind of thing a boundary slot is, in drawing order. */
  function Group(id: CellId): int {
    match id
    case Internet => 0
    case Node(Fw, _) => 1
    case Node(Gw, _) => 2
    case Node(Er, _) => 3
    case Node(NatGw, _) => 4
    case Node(Pip, _) => 5
    case _ => 6
  }

  ghost predicate GroupedSlots(slots: seq<Slot>, lo: int, hi: int) {
    && KeysDistinct(SlotId, slots)
    && forall s :: s in slots ==> lo <= Group(s.id) <= hi && s.w >= 0 && s.y == 40 && 0 <= s.h <= 70
  }

  lemma GroupsJoin(s: seq<Slot>, lo: int, hi: int, t: seq<Slot>, lo': int, hi': int)
    requires GroupedSlots(s, lo, hi) && GroupedSlots(t, lo', hi') && lo <= hi < lo' <= hi'
    ensures GroupedSlots(s + t, lo, hi')
  {
    var st := s + t;
    forall i, j | 0 <= i < j < |st| ensures SlotId(st[i]) != SlotId(st[j]) {
      if j < |s| {
        assert SlotId(s[i]) != SlotId(s[j]);
      } else if i >= |s| {
        assert SlotId(t[i - |s|]) != SlotId(t[j - |s|]);
      } else {
        assert st[i] in s && st[j] in t;
      }
    }
  }

  lemma NamedGrouped(kind: Kind, names: seq<string>, w: nat, g: int)
    requires Distinct(names) && forall n: string :: Group(Node(kind, n)) == g
    ensures GroupedSlots(NamedSlots(kind, names, w), g, g)
  {
  }

  lemma SixGroups(a: seq<Slot>, b: seq<Slot>, c: seq<Slot>, d: seq<Slot>, e: seq<Slot>, f: seq<Slot>)
    requires GroupedSlots(a, 0, 0) && GroupedSlots(b, 1, 1) && GroupedSlots(c, 2, 2)
    requires GroupedSlots(d, 3, 3) && GroupedSlots(e, 4, 4) && GroupedSlots(f, 5, 5)
    ensures GroupedSlots(a + b + c + d + e + f, 0, 5)
  {
    GroupsJoin(a, 0, 0, b, 1, 1);
    GroupsJoin(a + b, 0, 1, c, 2, 2);
    GroupsJoin(a + b + c, 0, 2, d, 3, 3);
    GroupsJoin(a + b + c + d, 0, 3, e, 4, 4);
    GroupsJoin(a + b + c + d + e, 0, 4, f, 5, 5);
  }

  lemma IngressGrouped(fx: Fixture)
    ensures GroupedSlots(InternetSlot(fx), 0, 0) && GroupedSlots(FirewallSlot(fx), 1, 1)
  {
  }

  lemma OrphansGrouped(pips: seq<PipDef>, overlay: OverlayMap)
    requires KeysDistinct(PipRid, pips)
    ensures GroupedSlots(OrphanSlots(pips, overlay), 5, 5)
  {
    OrphansAre(pips, overlay);
    OrphansDistinct(pips, overlay);
  }

  lemma BoundaryGrouped(fx: Fixture, overlay: OverlayMap)
    requires UniquelyNamed(fx)
    ensures GroupedSlots(BoundarySlots(fx, overlay), 0, 5)
  {
    NamedGrouped(Gw, fx.gateways, 140, 2);
    NamedGrouped(Er, fx.circuits, 150, 3);
    NamedGrouped(NatGw, fx.natGateways, 130, 4);
    OrphansGrouped(fx.pips, overlay);
    IngressGrouped(fx);
    SixGroups(InternetSlot(fx), FirewallSlot(fx), NamedSlots(Gw, fx.gateways, 140), NamedSlots(Er, fx.circuits, 150),
              NamedSlots(NatGw, fx.natGateways, 130), OrphanSlots(fx.pips, overlay));
  }

  lemma BoundaryRow(fx: Fixture, overlay: OverlayMap)
    requires UniquelyNamed(fx)
    ensures var row := Row(BoundarySlots(fx, overlay), 40, GAP_X);
            AllCompatible(row) && Housed(row, []) && Spans(row, 0, 0, 40, 110)
    ensures forall c :: c in Row(BoundarySlots(fx, overlay), 40, GAP_X) ==>
              c.parent == Root && c.x + c.w <= RowEnd(BoundarySlots(fx, overlay), 40, GAP_X)
  {
    BoundaryGrouped(fx, overlay);
    var slots := BoundarySlots(fx, overlay);
    RowCompatible(slots, 40, GAP_X);
    RowMembers(slots, 40, GAP_X);
    RowSpans(slots, 40, GAP_X, 0, 40, 110);
  }

  // ---------------------------------------------------------------- network interfaces in a subnet

  function SubnetId(key: string): CellId {
    Node(Subnet, key)
  }

  ghost predicate IsNicOf(nics: seq<NicDef>, key: string, c: Cell) {
    c.parent == SubnetId(key) && exists n :: n in nics && n.subnet == key && c.id == Node(Nic, NicRid(n))
  }

  lemma ColumnMembers(nics: seq<NicDef>, key: string, overlay: OverlayMap)
    ensures forall c :: c in NicColumn(NicsIn(nics, key), SubnetId(key), overlay) ==> IsNicOf(nics, key, c)
  {
    NicsInMembers(nics, key);
    var inside := NicsIn(nics, key);
    forall c | c in NicColumn(inside, SubnetId(key), overlay) ensures IsNicOf(nics, key, c) {
      var k :| 0 <= k < |inside| && c == NicCell(inside[k], SubnetId(key), k, overlay);
      assert inside[k] in inside;
    }
  }

  lemma ColumnCompatible(nics: seq<NicDef>, key: string, overlay: OverlayMap)
    requires KeysDistinct(NicRid, nics)
    ensures AllCompatible(NicColumn(NicsIn(nics, key), SubnetId(key), overlay))
  {
    NicsInDistinct(nics, key);
    var inside := NicsIn(nics, key);
    var column := NicColumn(inside, SubnetId(key), overlay);
    forall i, j | 0 <= i < j < |column| ensures Compatible(column[i], column[j]) {
      assert NicRid(inside[i]) != NicRid(inside[j]);
    }
  }

  // ---------------------------------------------------------------- subnets in a VNet

  /** A cell of the block drawn for one subnet. */
  ghost predicate InSubnet(nics: seq<NicDef>, v: string, key: string, c: Cell) {
    (c.id == SubnetId(key) && c.parent == Node(Vnet, v)) || IsNicOf(nics, key, c)
  }

  lemma NicBelongsOnce(nics: seq<NicDef>, key: string, c: Cell, key': string, c': Cell)
    requires KeysDistinct(NicRid, nics) && key != key' && IsNicOf(nics, key, c) && IsNicOf(nics, key', c')
    ensures c.id != c'.id && c.parent != c'.parent
  {
    var n :| n in nics && n.subnet == key && c.id == Node(Nic, NicRid(n));
    var n' :| n' in nics && n'.subnet == key' && c'.id == Node(Nic, NicRid(n'));
    var i :| 0 <= i < |nics| && nics[i] == n;
    var j :| 0 <= j < |nics| && nics[j] == n';
    if i < j {
      assert NicRid(nics[i]) != NicRid(nics[j]);
    } else {
      assert j < i;
      assert NicRid(nics[j]) != NicRid(nics[i]);
    }
  }

  /** Cells of different subnets differ, and are siblings only when both are subnet boxes. */
  lemma SubnetsApart(nics: seq<NicDef>, v: string, key: string, c: Cell, v': string, key': string, c': Cell)
    requires KeysDistinct(NicRid, nics) && key != key' && InSubnet(nics, v, key, c) && InSubnet(nics, v', key', c')
    ensures c.id != c'.id
    ensures c.parent == c'.parent ==> v == v' && c.id.kind.Subnet? && c'.id.kind.Subnet?
  {
    if IsNicOf(nics, key, c) && IsNicOf(nics, key', c') {
      NicBelongsOnce(nics, key, c, key', c');
    }
  }

  lemma BlockMembers(nics: seq<NicDef>, v: string, sn: string, y: int, overlay: OverlayMap)
    ensures forall c :: c in SubnetBlock(nics, v, sn, y, overlay) ==>
              InSubnet(nics, v, SubnetKey(v, sn), c) && (c.id.kind.Subnet? ==> c == SubnetCell(nics, v, sn, y))
  {
    ColumnMembers(nics, SubnetKey(v, sn), overlay);
  }

  lemma BlockCompatible(nics: seq<NicDef>, v: string, sn: string, y: int, overlay: OverlayMap)
    requires KeysDistinct(NicRid, nics)
    ensures AllCompatible(SubnetBlock(nics, v, sn, y, overlay))
  {
    var key := SubnetKey(v, sn);
    ColumnCompatible(nics, key, overlay);
    ColumnMembers(nics, key, overlay);
    Join([SubnetCell(nics, v, sn, y)], NicColumn(NicsIn(nics, key), SubnetId(key), overlay));
  }

  /** A subnet box is tall enough for its network interfaces. */
  lemma BlockHoused(nics: seq<NicDef>, v: string, sn: string, y: int, overlay: OverlayMap, vnet: Cell)
    requires vnet.id == Node(Vnet, v) && Inside(SubnetCell(nics, v, sn, y), vnet)
    ensures Housed(SubnetBlock(nics, v, sn, y, overlay), [vnet])
  {
    var key := SubnetKey(v, sn);
    var box, inside := SubnetCell(nics, v, sn, y), NicsIn(nics, key);
    var block := SubnetBlock(nics, v, sn, y, overlay);
    assert box in block;
    forall c | c in block ensures HousedIn(c, block, [vnet]) {
      if c == box {
        assert vnet in [vnet];
      } else {
        var k :| 0 <= k < |inside| && c == NicCell(inside[k], SubnetId(key), k, overlay);
        assert c.parent == box.id && Inside(c, box);
      }
    }
  }

  lemma {:induction false} SubnetYGrows(nics: seq<NicDef>, v: string, subnets: seq<string>)
    ensures SubnetY(nics, v, subnets) >= 70
  {
    if |subnets| > 0 {
      SubnetYGrows(nics, v, subnets[..|subnets| - 1]);
    }
  }

  /** Every cell of a VNet's subnets belongs to one of them, and every box ends above where the next would start. */
  ghost predicate InSubnets(nics: seq<NicDef>, v: string, subnets: seq<string>, c: Cell) {
    exists sn :: sn in subnets && InSubnet(nics, v, SubnetKey(v, sn), c)
  }

  ghost predicate AboveNext(nics: seq<NicDef>, v: string, subnets: seq<string>, c: Cell) {
    c.id.Node? && (c.id.kind.Subnet? ==> c.y >= 70 && c.y + c.h + 10 <= SubnetY(nics, v, subnets))
  }

  lemma {:induction false} BlocksMembers(nics: seq<NicDef>, v: string, subnets: seq<string>, overlay: OverlayMap)
    ensures forall c :: c in SubnetBlocks(nics, v, subnets, overlay) ==>
              InSubnets(nics, v, subnets, c) && AboveNext(nics, v, subnets, c)
  {
    if |subnets| > 0 {
      var init, sn := subnets[..|subnets| - 1], subnets[|subnets| - 1];
      assert subnets == init + [sn];
      var y := SubnetY(nics, v, init);
      BlocksMembers(nics, v, init, overlay);
      BlockMembers(nics, v, sn, y, overlay);
      SubnetYGrows(nics, v, init);
      forall c | c in SubnetBlocks(nics, v, subnets, overlay)
        ensures InSubnets(nics, v, subnets, c) && AboveNext(nics, v, subnets, c)
      {
        if c in SubnetBlocks(nics, v, init, overlay) {
          var t :| t in init && InSubnet(nics, v, SubnetKey(v, t), c);
          assert t in subnets;
        } else {
          assert sn in subnets && InSubnet(nics, v, SubnetKey(v, sn), c);
        }
      }
    }
  }

  lemma {:induction false} BlocksCompatible(nics: seq<NicDef>, v: string, subnets: seq<string>, overlay: OverlayMap)
    requires KeysDistinct(NicRid, nics) && Distinct(subnets)
    ensures AllCompatible(SubnetBlocks(nics, v, subnets, overlay))
  {
    if |subnets| > 0 {
      var init, sn := subnets[..|subnets| - 1], subnets[|subnets| - 1];
      var y := SubnetY(nics, v, init);
      BlocksCompatible(nics, v, init, overlay);
      BlockCompatible(nics, v, sn, y, overlay);
      BlocksMembers(nics, v, init, overlay);
      BlockMembers(nics, v, sn, y, overlay);
      var before, block := SubnetBlocks(nics, v, init, overlay), SubnetBlock(nics, v, sn, y, overlay);
      forall a, b | a in before && b in block ensures Compatible(a, b) {
        var t :| t in init && InSubnet(nics, v, SubnetKey(v, t), a);
        var i :| 0 <= i < |init| && init[i] == t;
        assert subnets[i] != subnets[|subnets| - 1];
        if SubnetKey(v, t) == SubnetKey(v, sn) {
          SameVNetKeys(v, t, sn);
        }
        SubnetsApart(nics, v, SubnetKey(v, t), a, v, SubnetKey(v, sn), b);
        assert AboveNext(nics, v, init, a);
      }
      Join(before, block);
    }
  }

  lemma {:induction false} BlocksHoused(nics: seq<NicDef>, v: string, subnets: seq<string>, overlay: OverlayMap, vnet: Cell)
    requires vnet.id == Node(Vnet, v) && vnet.w == VNET_W && SubnetY(nics, v, subnets) <= vnet.h
    ensures Housed(SubnetBlocks(nics, v, subnets, overlay), [vnet])
  {
    if |subnets| > 0 {
      var init, sn := subnets[..|subnets| - 1], subnets[|subnets| - 1];
      var y := SubnetY(nics, v, init);
      BlocksHoused(nics, v, init, overlay, vnet);
      SubnetYGrows(nics, v, init);
      BlockHoused(nics, v, sn, y, overlay, vnet);
      HousedJoin(SubnetBlocks(nics, v, init, overlay), SubnetBlock(nics, v, sn, y, overlay), [vnet]);
    }
  }

  // ---------------------------------------------------------------- the VNet row

  /** A cell of the block drawn for one VNet. */
  ghost predicate InVNet(fx: Fixture, v: VNet, level: Level, c: Cell) {
    (c.id == Node(Vnet, v.name) && c.parent == Root) || (level.Mld? && InSubnets(fx.nics, v.name, v.subnets, c))
  }

  /** Within the row, and left of where the next VNet starts. */
  ghost predicate LeftOf(c: Cell, next: int, bottom: int) {
    c.parent == Root ==> c.x + c.w <= next && c.y == VNET_Y && c.y + c.h <= bottom
  }

  lemma VNetBlockMembers(fx: Fixture, v: VNet, level: Level, x: int, overlay: OverlayMap)
    ensures forall c :: c in VNetBlock(fx, v, level, x, overlay) ==>
              InVNet(fx, v, level, c) && (c.parent == Root ==> c == VNetCell(fx, v, level, x, overlay))
  {
    BlocksMembers(fx.nics, v.name, v.subnets, overlay);
  }

  lemma VNetBlockCompatible(fx: Fixture, v: VNet, level: Level, x: int, overlay: OverlayMap)
    requires KeysDistinct(NicRid, fx.nics) && Distinct(v.subnets)
    ensures AllCompatible(VNetBlock(fx, v, level, x, overlay))
  {
    if level.Mld? {
      BlocksCompatible(fx.nics, v.name, v.subnets, overlay);
      BlocksMembers(fx.nics, v.name, v.subnets, overlay);
      Join([VNetCell(fx, v, level, x, overlay)], SubnetBlocks(fx.nics, v.name, v.subnets, overlay));
    }
  }

  /** A VNet box is tall enough for its subnets. */
  lemma VNetBlockHoused(fx: Fixture, v: VNet, level: Level, x: int, overlay: OverlayMap)
    ensures Housed(VNetBlock(fx, v, level, x, overlay), [])
  {
    var box := VNetCell(fx, v, level, x, overlay);
    assert Housed([box], []);
    if level.Mld? {
      BlocksHoused(fx.nics, v.name, v.subnets, overlay, box);
      HousedAfter(SubnetBlocks(fx.nics, v.name, v.subnets, overlay), [box]);
    }
  }

  /** Cells of different VNets differ, and are siblings only when both are VNet boxes. */
  lemma VNetsApart(fx: Fixture, vs: seq<VNet>, level: Level, v: VNet, c: Cell, w: VNet, d: Cell)
    requires RowOk(fx, vs, level) && v in vs && w in vs && v.name != w.name
    requires InVNet(fx, v, level, c) && InVNet(fx, w, level, d)
    ensures c.id != d.id
    ensures c.parent == d.parent ==> c.parent == Root
  {
    if level.Mld? && InSubnets(fx.nics, v.name, v.subnets, c) && InSubnets(fx.nics, w.name, w.subnets, d) {
      var s :| s in v.subnets && InSubnet(fx.nics, v.name, SubnetKey(v.name, s), c);
      var t :| t in w.subnets && InSubnet(fx.nics, w.name, SubnetKey(w.name, t), d);
      assert SubnetKey(v.name, s) != SubnetKey(w.name, t);
      SubnetsApart(fx.nics, v.name, SubnetKey(v.name, s), c, w.name, SubnetKey(w.name, t), d);
    }
  }

  ghost predicate RowOk(fx: Fixture, vs: seq<VNet>, level: Level) {
    && KeysDistinct(NicRid, fx.nics) && KeysDistinct(VNetName, vs)
    && (forall v :: v in vs ==> Distinct(v.subnets))
    && (level.Mld? ==> SubnetKeysApart(vs))
  }

  lemma {:induction false} VNetsMembers(fx: Fixture, vs: seq<VNet>, level: Level, overlay: OverlayMap)
    ensures MaxBottom(fx, vs, level) >= VNET_Y
    ensures forall c :: c in VNetBlocks(fx, vs, level, overlay) ==>
              (exists v :: v in vs && InVNet(fx, v, level, c))
              && LeftOf(c, VNetX(|vs|) - GAP_X, MaxBottom(fx, vs, level))
  {
    if |vs| > 0 {
      var init, v := vs[..|vs| - 1], vs[|vs| - 1];
      assert vs == init + [v];
      VNetsMembers(fx, init, level, overlay);
      VNetBlockMembers(fx, v, level, VNetX(|init|), overlay);
      forall c | c in VNetBlocks(fx, vs, level, overlay)
        ensures (exists v :: v in vs && InVNet(fx, v, level, c))
        ensures LeftOf(c, VNetX(|vs|) - GAP_X, MaxBottom(fx, vs, level))
      {
        if c in VNetBlocks(fx, init, level, overlay) {
          var u :| u in init && InVNet(fx, u, level, c);
          assert u in vs;
          assert LeftOf(c, VNetX(|init|) - GAP_X, MaxBottom(fx, init, level));
        } else {
          assert v in vs && InVNet(fx, v, level, c);
        }
      }
    }
  }

  lemma {:induction false} VNetsCompatible(fx: Fixture, vs: seq<VNet>, level: Level, overlay: OverlayMap)
    requires RowOk(fx, vs, level)
    ensures AllCompatible(VNetBlocks(fx, vs, level, overlay))
  {
    if |vs| > 0 {
      var init, v := vs[..|vs| - 1], vs[|vs| - 1];
      RowOkBefore(fx, vs, level);
      VNetsCompatible(fx, init, level, overlay);
      VNetBlockCompatible(fx, v, level, VNetX(|init|), overlay);
      NextVNetApart(fx, vs, level, overlay);
      Join(VNetBlocks(fx, init, level, overlay), VNetBlock(fx, v, level, VNetX(|init|), overlay));
    }
  }

  lemma RowOkBefore(fx: Fixture, vs: seq<VNet>, level: Level)
    requires RowOk(fx, vs, level) && |vs| > 0
    ensures RowOk(fx, vs[..|vs| - 1], level)
    ensures forall u :: u in vs[..|vs| - 1] ==> u in vs && u.name != vs[|vs| - 1].name
  {
    var init := vs[..|vs| - 1];
    forall u | u in init ensures u in vs && u.name != vs[|vs| - 1].name {
      var i :| 0 <= i < |init| && init[i] == u;
      assert VNetName(vs[i]) != VNetName(vs[|vs| - 1]);
    }
  }

  lemma NextVNetApart(fx: Fixture, vs: seq<VNet>, level: Level, overlay: OverlayMap)
    requires RowOk(fx, vs, level) && |vs| > 0
    ensures var init, v := vs[..|vs| - 1], vs[|vs| - 1];
            CrossCompatible(VNetBlocks(fx, init, level, overlay), VNetBlock(fx, v, level, VNetX(|init|), overlay))
  {
    var init, v := vs[..|vs| - 1], vs[|vs| - 1];
    RowOkBefore(fx, vs, level);
    VNetsMembers(fx, init, level, overlay);
    VNetBlockMembers(fx, v, level, VNetX(|init|), overlay);
    var before, block := VNetBlocks(fx, init, level, overlay), VNetBlock(fx, v, level, VNetX(|init|), overlay);
    forall a, b | a in before && b in block ensures Compatible(a, b) {
      var u :| u in init && InVNet(fx, u, level, a);
      VNetsApart(fx, vs, level, u, a, v, b);
      assert LeftOf(a, VNetX(|init|) - GAP_X, MaxBottom(fx, init, level));
    }
  }

  lemma {:induction false} VNetsHoused(fx: Fixture, vs: seq<VNet>, level: Level, overlay: OverlayMap)
    ensures Housed(VNetBlocks(fx, vs, level, overlay), [])
  {
    if |vs| > 0 {
      var init, v := vs[..|vs| - 1], vs[|vs| - 1];
      VNetsHoused(fx, init, level, overlay);
      VNetBlockHoused(fx, v, level, VNetX(|init|), overlay);
      HousedJoin(VNetBlocks(fx, init, level, overlay), VNetBlock(fx, v, level, VNetX(|init|), overlay), []);
    }
  }

  lemma InVNetBand(fx: Fixture, v: VNet, level: Level, c: Cell)
    requires InVNet(fx, v, level, c)
    ensures Band(c.id) == 2
  {
  }

  lemma VNetsSpan(fx: Fixture, vs: seq<VNet>, level: Level, overlay: OverlayMap)
    ensures Spans(VNetBlocks(fx, vs, level, overlay), 2, 2, VNET_Y, MaxBottom(fx, vs, level))
  {
    VNetsMembers(fx, vs, level, overlay);
    forall c | c in VNetBlocks(fx, vs, level, overlay)
      ensures Band(c.id) == 2
      ensures c.parent == Root ==> VNET_Y <= c.y && c.y + c.h <= MaxBottom(fx, vs, level)
    {
      var v :| v in vs && InVNet(fx, v, level, c);
      InVNetBand(fx, v, level, c);
      assert LeftOf(c, VNetX(|vs|) - GAP_X, MaxBottom(fx, vs, level));
    }
  }

  lemma OrderedOk(fx: Fixture, level: Level)
    requires Drawable(fx, level)
    ensures RowOk(fx, Ordered(fx.vnets), level)
  {
    KeysDistinctPermutation(VNetName, fx.vnets, Ordered(fx.vnets));
    SameElements(fx.vnets, Ordered(fx.vnets));
  }

  lemma VNetRow(fx: Fixture, level: Level, overlay: OverlayMap)
    requires Drawable(fx, level)
    ensures var row := VNetBlocks(fx, Ordered(fx.vnets), level, overlay);
            && AllCompatible(row) && Housed(row, [])
            && Spans(row, 2, 2, VNET_Y, MaxBottom(fx, Ordered(fx.vnets), level))
    ensures MaxBottom(fx, Ordered(fx.vnets), level) >= VNET_Y
  {
    var vs := Ordered(fx.vnets);
    OrderedOk(fx, level);
    VNetsCompatible(fx, vs, level, overlay);
    VNetsHoused(fx, vs, level, overlay);
    VNetsMembers(fx, vs, level, overlay);
    VNetsSpan(fx, vs, level, overlay);
  }

  // ---------------------------------------------------------------- stubs and the application band

  function StubBottom(fx: Fixture, level: Level, stubs: seq<string>): int {
    if |stubs| > 0 then StubY(fx, level) + 60 else StubY(fx, level)
  }

  lemma StubRow(fx: Fixture, level: Level, stubs: seq<string>)
    requires Distinct(stubs)
    ensures var row := Row(StubSlots(stubs, StubY(fx, level)), 40, 40);
            && AllCompatible(row) && Housed(row, [])
            && Spans(row, 3, 3, StubY(fx, level), StubBottom(fx, level, stubs))
  {
    var slots := StubSlots(stubs, StubY(fx, level));
    RowCompatible(slots, 40, 40);
    RowHoused(slots, 40, 40);
    RowSpans(slots, 40, 40, 3, StubY(fx, level), StubBottom(fx, level, stubs));
  }

  lemma AppKindBand(a: AppItem)
    requires IsAppKind(a.kind)
    ensures Band(AppId(a)) == 5
  {
  }

  lemma AppSlotsOk(items: seq<AppItem>, y: int, overlay: OverlayMap)
    requires KeysDistinct(AppId, items) && forall a :: a in items ==> IsAppKind(a.kind)
    ensures KeysDistinct(SlotId, AppSlots(items, y, overlay)) && Widths(AppSlots(items, y, overlay))
    ensures forall s :: s in AppSlots(items, y, overlay) ==> Band(s.id) == 5 && s.y == y && s.h == 54
  {
    var slots := AppSlots(items, y, overlay);
    forall i, j | 0 <= i < j < |slots| ensures SlotId(slots[i]) != SlotId(slots[j]) {
      assert AppId(items[i]) != AppId(items[j]);
    }
    forall s | s in slots ensures Band(s.id) == 5 && s.y == y && s.h == 54 && s.w >= 0 {
      var i :| 0 <= i < |slots| && slots[i] == s;
      assert items[i] in items;
      AppKindBand(items[i]);
    }
  }

  lemma AppRow(fx: Fixture, y: int, overlay: OverlayMap)
    requires KeysDistinct(AppId, AppItems(fx))
    ensures var row := Row(AppSlots(AppItems(fx), y, overlay), 40, 30);
            AllCompatible(row) && Housed(row, []) && Spans(row, 5, 5, y, y + 54)
  {
    var slots := AppSlots(AppItems(fx), y, overlay);
    AppItemKinds(fx);
    AppSlotsOk(AppItems(fx), y, overlay);
    RowCompatible(slots, 40, 30);
    RowHoused(slots, 40, 30);
    RowSpans(slots, 40, 30, 5, y, y + 54);
  }

  lemma AppBandOk(fx: Fixture, level: Level, stubs: seq<string>, overlay: OverlayMap)
    requires KeysDistinct(AppId, AppItems(fx))
    ensures var band, y := AppBand(fx, level, stubs, overlay), AppY(fx, level, stubs);
            AllCompatible(band) && Housed(band, []) && Spans(band, 4, 5, y - 26, y + 54)
  {
    var y := AppY(fx, level, stubs);
    if |AppItems(fx)| > 0 {
      AppRow(fx, y, overlay);
      UnderTitle(Row(AppSlots(AppItems(fx), y, overlay), 40, 30), y);
    }
  }

  lemma UnderTitle(row: seq<Cell>, y: int)
    requires AllCompatible(row) && Housed(row, []) && Spans(row, 5, 5, y, y + 54)
    ensures var band := [BandTitle(y)] + row; AllCompatible(band) && Housed(band, []) && Spans(band, 4, 5, y - 26, y + 54)
  {
    TitleOk(y);
    Stack([BandTitle(y)], 4, 4, y - 26, y - 6, row, 5, 5, y, y + 54);
    HousedJoin([BandTitle(y)], row, []);
  }

  lemma TitleOk(y: int)
    ensures var title := [BandTitle(y)]; AllCompatible(title) && Housed(title, []) && Spans(title, 4, 4, y - 26, y - 6)
  {
  }

  // ---------------------------------------------------------------- the whole page

  /** Everything below the boundary row. */
  function Lower(fx: Fixture, level: Level, overlay: OverlayMap, stubs: seq<string>): seq<Cell> {
    VNetBlocks(fx, Ordered(fx.vnets), level, overlay)
    + Row(StubSlots(stubs, StubY(fx, level)), 40, 40)
    + AppBand(fx, level, stubs, overlay)
  }

  lemma LowerOk(fx: Fixture, level: Level, overlay: OverlayMap, stubs: seq<string>)
    requires Drawable(fx, level) && Distinct(stubs)
    ensures var lower := Lower(fx, level, overlay, stubs);
            && AllCompatible(lower) && Housed(lower, [])
            && Spans(lower, 2, 5, VNET_Y, AppY(fx, level, stubs) + 54)
    ensures AppY(fx, level, stubs) >= VNET_Y
  {
    var row, bottom := VNetBlocks(fx, Ordered(fx.vnets), level, overlay), MaxBottom(fx, Ordered(fx.vnets), level);
    var out, band := Row(StubSlots(stubs, StubY(fx, level)), 40, 40), AppBand(fx, level, stubs, overlay);
    var y := AppY(fx, level, stubs);
    VNetRow(fx, level, overlay);
    StubRow(fx, level, stubs);
    AppBandOk(fx, level, stubs, overlay);
    Stack(row, 2, 2, VNET_Y, bottom, out, 3, 3, StubY(fx, level), StubBottom(fx, level, stubs));
    Stack(row + out, 2, 3, VNET_Y, StubBottom(fx, level, stubs), band, 4, 5, y - 26, y + 54);
    HousedJoin(row, out, []);
    HousedJoin(row + out, band, []);
  }

  lemma LegendClears(top: seq<Cell>, lower: seq<Cell>, legend: Cell, right: int, bottom: int)
    requires Spans(top, 0, 0, 40, 110) && Spans(lower, 2, 5, VNET_Y, bottom)
    requires forall c :: c in top ==> c.x + c.w <= right
    requires legend.id == Legend && legend.parent == Root && right <= legend.x && legend.y + legend.h <= VNET_Y
    ensures CrossCompatible(top, [legend]) && CrossCompatible(lower, [legend])
  {
  }

  lemma LegendApart(fx: Fixture, level: Level, overlay: OverlayMap, stubs: seq<string>)
    requires Drawable(fx, level) && Distinct(stubs)
    ensures CrossCompatible(Row(BoundarySlots(fx, overlay), 40, GAP_X), [LegendCell(fx, overlay)])
    ensures CrossCompatible(Lower(fx, level, overlay, stubs), [LegendCell(fx, overlay)])
  {
    BoundaryRow(fx, overlay);
    LowerOk(fx, level, overlay, stubs);
    LegendClears(Row(BoundarySlots(fx, overlay), 40, GAP_X), Lower(fx, level, overlay, stubs), LegendCell(fx, overlay),
                 RowEnd(BoundarySlots(fx, overlay), 40, GAP_X), AppY(fx, level, stubs) + 54);
  }

  lemma Assemble(top: seq<Cell>, lower: seq<Cell>, legend: Cell, bottom: int)
    requires AllCompatible(top) && Housed(top, []) && Spans(top, 0, 0, 40, 110)
    requires AllCompatible(lower) && Housed(lower, []) && Spans(lower, 2, 5, VNET_Y, bottom) && bottom >= VNET_Y
    requires legend.id == Legend && legend.parent == Root
    requires CrossCompatible(top, [legend]) && CrossCompatible(lower, [legend])
    ensures AllCompatible(top + lower + [legend]) && Housed(top + lower + [legend], [])
    ensures forall c :: c in top + lower + [legend] ==> c.id != Root
  {
    Stack(top, 0, 0, 40, 110, lower, 2, 5, VNET_Y, bottom);
    HousedJoin(top, lower, []);
    Join(top + lower, [legend]);
    HousedJoin(top + lower, [legend], []);
  }

  lemma Regroup(a: seq<Cell>, b: seq<Cell>, c: seq<Cell>, d: seq<Cell>, e: seq<Cell>)
    ensures a + b + c + d + e == a + (b + c + d) + e
  {
    AppendTwice(a, b, c);
    AppendTwice(a, b + c, d);
  }

  lemma CellsInParts(fx: Fixture, level: Level, overlay: OverlayMap, stubs: seq<string>)
    ensures Cells(fx, level, overlay, stubs)
         == Row(BoundarySlots(fx, overlay), 40, GAP_X) + Lower(fx, level, overlay, stubs) + [LegendCell(fx, overlay)]
  {
    Regroup(Row(BoundarySlots(fx, overlay), 40, GAP_X), VNetBlocks(fx, Ordered(fx.vnets), level, overlay),
            Row(StubSlots(stubs, StubY(fx, level)), 40, 40), AppBand(fx, level, stubs, overlay), [LegendCell(fx, overlay)]);
  }

  lemma PageOk(fx: Fixture, level: Level, overlay: OverlayMap, stubs: seq<string>)
    requires Drawable(fx, level) && Distinct(stubs)
    ensures AllCompatible(Cells(fx, level, overlay, stubs)) && Housed(Cells(fx, level, overlay, stubs), [])
    ensures forall c :: c in Cells(fx, level, overlay, stubs) ==> c.id != Root
  {
    BoundaryRow(fx, overlay);
    LowerOk(fx, level, overlay, stubs);
    LegendApart(fx, level, overlay, stubs);
    Assemble(Row(BoundarySlots(fx, overlay), 40, GAP_X), Lower(fx, level, overlay, stubs), LegendCell(fx, overlay),
             AppY(fx, level, stubs) + 54);
    CellsInParts(fx, level, overlay, stubs);
  }

  // ---------------------------------------------------------------- as the checker reads it

  function ShapeOf(c: Cell): LayoutCheck.Shape<CellId> {
    LayoutCheck.Shape(c.id, c.parent, LayoutCheck.Rect(c.x as real, c.y as real, c.w as real, c.h as real))
  }

  function Shapes(cells: seq<Cell>): seq<LayoutCheck.Shape<CellId>> {
    seq(|cells|, i requires 0 <= i < |cells| => ShapeOf(cells[i]))
  }

  lemma ApartNeverOverlap(a: Cell, b: Cell)
    requires Apart(a, b)
    ensures !LayoutCheck.Overlap(ShapeOf(a).rect, ShapeOf(b).rect)
  {
  }

  lemma InsideFits(c: Cell, p: Cell)
    requires Inside(c, p)
    ensures LayoutCheck.Fits(ShapeOf(c).rect, ShapeOf(p).rect)
  {
  }

  ghost predicate IdsDistinct(cells: seq<Cell>) {
    forall i, j :: 0 <= i < j < |cells| ==> cells[i].id != cells[j].id
  }

  lemma LastIdIsNew(cells: seq<Cell>)
    requires IdsDistinct(cells) && |cells| > 0
    ensures IdsDistinct(cells[..|cells| - 1])
    ensures forall c :: c in cells[..|cells| - 1] ==> c.id != cells[|cells| - 1].id
  {
  }

  ghost predicate IsTable(geom: map<CellId, LayoutCheck.Shape<CellId>>, cells: seq<Cell>) {
    && (forall c :: c in cells ==> c.id in geom && geom[c.id] == ShapeOf(c))
    && (forall id :: id in geom ==> exists c :: c in cells && c.id == id)
  }

  lemma TableOneMore(geom: map<CellId, LayoutCheck.Shape<CellId>>, cells: seq<Cell>, last: Cell)
    requires IsTable(geom, cells) && forall c :: c in cells ==> c.id != last.id
    ensures last.id !in geom && IsTable(geom[last.id := ShapeOf(last)], cells + [last])
  {
    assert last in cells + [last];
    forall id | id in geom ensures exists c :: c in cells + [last] && c.id == id {
      var c :| c in cells && c.id == id;
      assert c in cells + [last];
    }
  }

  /** With distinct ids the geometry table holds every cell. */
  lemma {:induction false} GeometryHolds(cells: seq<Cell>)
    requires IdsDistinct(cells)
    ensures IsTable(LayoutCheck.Geometry(Shapes(cells)), cells)
    ensures |LayoutCheck.Geometry(Shapes(cells))| == |cells|
  {
    if |cells| == 0 {
      NoGeometry(cells);
    } else {
      LastIdIsNew(cells);
      GeometryHolds(cells[..|cells| - 1]);
      LastIsHeld(cells);
    }
  }

  lemma NoGeometry(cells: seq<Cell>)
    requires |cells| == 0
    ensures IsTable(LayoutCheck.Geometry(Shapes(cells)), cells) && |LayoutCheck.Geometry(Shapes(cells))| == 0
  {
  }

  lemma LastIsHeld(cells: seq<Cell>)
    requires |cells| > 0 && forall c :: c in cells[..|cells| - 1] ==> c.id != cells[|cells| - 1].id
    requires IsTable(LayoutCheck.Geometry(Shapes(cells[..|cells| - 1])), cells[..|cells| - 1])
    requires |LayoutCheck.Geometry(Shapes(cells[..|cells| - 1]))| == |cells| - 1
    ensures IsTable(LayoutCheck.Geometry(Shapes(cells)), cells)
    ensures |LayoutCheck.Geometry(Shapes(cells))| == |cells|
  {
    var init, last := cells[..|cells| - 1], cells[|cells| - 1];
    GeometryOneMore(init, last);
    TableOneMore(LayoutCheck.Geometry(Shapes(init)), init, last);
    assert cells == init + [last];
  }

  lemma GeometryOneMore(cells: seq<Cell>, last: Cell)
    ensures LayoutCheck.Geometry(Shapes(cells + [last])) == LayoutCheck.Geometry(Shapes(cells))[last.id := ShapeOf(last)]
  {
    assert Shapes(cells + [last])[..|cells|] == Shapes(cells);
  }

  lemma CompatibleIsLegible(cells: seq<Cell>)
    requires AllCompatible(cells) && Housed(cells, []) && forall c :: c in cells ==> c.id != Root
    ensures IdsDistinct(cells) && LayoutCheck.Legible(Shapes(cells))
  {
    var shapes := Shapes(cells);
    forall i, j | 0 <= i < j < |cells| ensures cells[i].id != cells[j].id {
      assert Compatible(cells[i], cells[j]);
    }
    forall i, j | 0 <= i < j < |shapes| && shapes[i].parent == shapes[j].parent
      ensures !LayoutCheck.Overlap(shapes[i].rect, shapes[j].rect)
    {
      assert Compatible(cells[i], cells[j]);
      ApartNeverOverlap(cells[i], cells[j]);
    }
    GeometryHolds(cells);
    var geom := LayoutCheck.Geometry(shapes);
    forall id | id in geom ensures LayoutCheck.Contained(geom, id) {
      var c :| c in cells && c.id == id;
      assert HousedIn(c, cells, []);
      if c.parent != Root {
        var p :| p in cells && p.id == c.parent && Inside(c, p);
        InsideFits(c, p);
      } else {
        assert Root !in geom;
      }
    }
  }

  /** The checker accepts every diagram, at either level, under any overlay and with any out-of-scope peers,
      and no two cells share an id. */
  lemma EveryDiagramIsLegible(fx: Fixture, level: Level, overlay: OverlayMap, stubs: seq<string>)
    requires Drawable(fx, level) && Distinct(stubs)
    ensures IdsDistinct(Cells(fx, level, overlay, stubs))
    ensures LayoutCheck.Legible(Shapes(Cells(fx, level, overlay, stubs)))
  {
    PageOk(fx, level, overlay, stubs);
    CompatibleIsLegible(Cells(fx, level, overlay, stubs));
  }

  /** Every box other than those on the page itself lies within a parent that is drawn. */
  lemma EveryBoxIsHoused(fx: Fixture, level: Level, overlay: OverlayMap, stubs: seq<string>, c: Cell)
    requires Drawable(fx, level) && Distinct(stubs) && c in Cells(fx, level, overlay, stubs) && c.parent != Root
    ensures exists p :: p in Cells(fx, level, overlay, stubs) && p.id == c.parent && Inside(c, p)
  {
    PageOk(fx, level, overlay, stubs);
    assert HousedIn(c, Cells(fx, level, overlay, stubs), []);
  }
}
