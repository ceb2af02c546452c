/** The builder itself: a canvas filled band by band, a running offset at a time. */
module DiagramBuilder {
  import opened Prelude
  import opened Ordering
  import opened CellIds
  import opened Overlay
  import opened Fixtures
  import opened Diagram
  import opened DiagramContents
  import opened DiagramEdges

  // ---------------------------------------------------------------- lookups

  type Index = map<string, seq<NicDef>>

  function Lookup(index: Index, key: string): seq<NicDef> {
    if key in index then index[key] else []
  }

  function Filed(index: Index, key: string, n: NicDef): Index {
    index[key := Lookup(index, key) + [n]]
  }

  /** The network interfaces whose subnet key names a VNet, in fixture order. */
  function NicsOf(nics: seq<NicDef>, v: string): seq<NicDef> {
    if |nics| == 0 then []
    else
      var before := NicsOf(nics[..|nics| - 1], v);
      if NicVNet(nics[|nics| - 1]) == v then before + [nics[|nics| - 1]] else before
  }

  method IndexNics(nics: seq<NicDef>) returns (bySubnet: Index, byVNet: Index)
    ensures forall k :: Lookup(bySubnet, k) == NicsIn(nics, k)
    ensures forall k :: Lookup(byVNet, k) == NicsOf(nics, k)
  {
    bySubnet, byVNet := map[], map[];
    for i := 0 to |nics|
      invariant forall k :: Lookup(bySubnet, k) == NicsIn(nics[..i], k)
      invariant forall k :: Lookup(byVNet, k) == NicsOf(nics[..i], k)
    {
      var n := nics[i];
      assert nics[..i + 1][..i] == nics[..i] && nics[..i + 1][i] == n;
      bySubnet := Filed(bySubnet, n.subnet, n);
      byVNet := Filed(byVNet, NicVNet(n), n);
    }
    assert nics[..|nics|] == nics;
  }

  function RollupOver(nics: seq<NicDef>, v: string, overlay: OverlayMap): Severity {
    if |nics| == 0 then SeverityOf(overlay, Node(Vnet, v))
    else Worse(RollupOver(nics[..|nics| - 1], v, overlay), SeverityOf(overlay, Node(Nic, NicRid(nics[|nics| - 1]))))
  }

  lemma {:induction false} RollupFilters(nics: seq<NicDef>, v: string, overlay: OverlayMap)
    ensures RollupOver(NicsOf(nics, v), v, overlay) == Rollup(nics, v, overlay)
  {
    if |nics| > 0 {
      var init, last := nics[..|nics| - 1], nics[|nics| - 1];
      RollupFilters(init, v, overlay);
      var before := NicsOf(init, v);
      assert (before + [last])[..|before|] == before;
    }
  }

  method VNetRollup(v: string, members: seq<NicDef>, overlay: OverlayMap) returns (sev: Severity)
    ensures sev == RollupOver(members, v, overlay)
  {
    sev := SeverityOf(overlay, Node(Vnet, v));
    for i := 0 to |members|
      invariant sev == RollupOver(members[..i], v, overlay)
    {
      assert members[..i + 1][..i] == members[..i];
      var s := SeverityOf(overlay, Node(Nic, NicRid(members[i])));
      if Rank(s) > Rank(sev) {
        sev := s;
      }
    }
    assert members[..|members|] == members;
  }

  method VNetHeight(fx: Fixture, v: VNet, level: Level, bySubnet: Index) returns (h: int)
    requires forall k :: Lookup(bySubnet, k) == NicsIn(fx.nics, k)
    ensures h == VNetH(fx, v, level)
  {
    if level.Hld? {
      return 90;
    }
    h := 70;
    for i := 0 to |v.subnets|
      invariant h == SubnetY(fx.nics, v.name, v.subnets[..i])
    {
      assert v.subnets[..i + 1][..i] == v.subnets[..i];
      var sh := 26 + |Lookup(bySubnet, SubnetKey(v.name, v.subnets[i]))| * (NODE_H + 6) + 10;
      h := h + sh + 10;
    }
    assert v.subnets[..|v.subnets|] == v.subnets;
    h := if h + 10 > 90 then h + 10 else 90;
  }

  lemma StubRowEnd(stubs: seq<string>, y: int)
    ensures RowEnd(StubSlots(stubs, y), 40, 40) == 40 + |stubs| * 220
  {
    if |stubs| > 0 {
      StubRowEnd(stubs[..|stubs| - 1], y);
      assert StubSlots(stubs, y)[..|stubs| - 1] == StubSlots(stubs[..|stubs| - 1], y);
    }
  }

  lemma SubnetsOneMore(nics: seq<NicDef>, v: string, subnets: seq<string>, i: nat, overlay: OverlayMap, base: seq<Cell>)
    requires i < |subnets|
    ensures base + SubnetBlocks(nics, v, subnets[..i + 1], overlay)
         == base + SubnetBlocks(nics, v, subnets[..i], overlay)
            + SubnetBlock(nics, v, subnets[i], SubnetY(nics, v, subnets[..i]), overlay)
    ensures SubnetY(nics, v, subnets[..i + 1]) == SubnetY(nics, v, subnets[..i]) + SubnetH(nics, SubnetKey(v, subnets[i])) + 10
  {
    assert subnets[..i + 1][..i] == subnets[..i] && subnets[..i + 1][i] == subnets[i];
    AppendTwice(base, SubnetBlocks(nics, v, subnets[..i], overlay),
                SubnetBlock(nics, v, subnets[i], SubnetY(nics, v, subnets[..i]), overlay));
  }

  lemma VNetsOneMore(fx: Fixture, vs: seq<VNet>, v: VNet, level: Level, overlay: OverlayMap, base: seq<Cell>)
    ensures base + VNetBlocks(fx, vs + [v], level, overlay)
         == base + VNetBlocks(fx, vs, level, overlay) + VNetBlock(fx, v, level, VNetX(|vs|), overlay)
    ensures MaxBottom(fx, vs + [v], level)
         == var m, b := MaxBottom(fx, vs, level), VNET_Y + VNetH(fx, v, level); if b > m then b else m
  {
    assert (vs + [v])[..|vs|] == vs;
    AppendTwice(base, VNetBlocks(fx, vs, level, overlay), VNetBlock(fx, v, level, VNetX(|vs|), overlay));
  }

  lemma OverlapsOneMore(fs: seq<Finding>, f: Finding, names: set<string>)
    ensures var before, p := Overlaps(fs, names), OverlapPair(f);
            if !f.kind.CidrOverlap? || Key(p) in Keys(before) || p.a !in names || p.b !in names
            then Overlaps(fs + [f], names) == before
            else Keys(Overlaps(fs + [f], names)) == Keys(before) + {Key(p)}
                 && OverlapLines(Overlaps(fs + [f], names)) == OverlapLines(before) + [OverlapLine(p)]
  {
    assert (fs + [f])[..|fs|] == fs;
    var before, p := Overlaps(fs, names), OverlapPair(f);
    assert OverlapLines(before + [p]) == OverlapLines(before) + [OverlapLine(p)];
    KeysOneMore(before, p);
  }

  lemma KeysOneMore(ps: seq<Pair>, p: Pair)
    ensures Keys(ps + [p]) == Keys(ps) + {Key(p)}
  {
  }

  lemma PeeredOneMore(links: seq<Link>, l: Link, names: set<string>)
    ensures var before := Peered(links);
            if Ends(l).None? || Key(Ends(l).value) in Keys(before) then Peered(links + [l]) == before
            else
              var p := Ends(l).value;
              && Keys(Peered(links + [l])) == Keys(before) + {Key(p)}
              && PeerLines(Peered(links + [l]), names) == PeerLines(before, names) + [PeerLine(p, names)]
              && Stubs(Peered(links + [l]), names) == AddStub(AddStub(Stubs(before, names), p.a, names), p.b, names)
  {
    assert (links + [l])[..|links|] == links;
    var before := Peered(links);
    if Ends(l).Some? {
      var p := Ends(l).value;
      KeysOneMore(before, p);
      assert (before + [p])[..|before|] == before;
      assert PeerLines(before + [p], names) == PeerLines(before, names) + [PeerLine(p, names)];
    }
  }

  lemma NothingBefore(s: seq<Cell>)
    ensures [] + s == s
  {
  }

  lemma PlacedInParts(fx: Fixture, level: Level, overlay: OverlayMap, y: int, stubs: seq<string>)
    requires y == StubY(fx, level)
    ensures Placed(fx, level, overlay, stubs)
         == [] + Row(BoundarySlots(fx, overlay), 40, GAP_X) + VNetBlocks(fx, Ordered(fx.vnets), level, overlay)
            + Row(StubSlots(stubs, y), 40, 40)
  {
    NothingBefore(Row(BoundarySlots(fx, overlay), 40, GAP_X));
  }

  lemma BandInParts(fx: Fixture, level: Level, stubs: seq<string>, overlay: OverlayMap, y: int)
    requires y == AppY(fx, level, stubs)
    ensures AppBand(fx, level, stubs, overlay) ==
            if |AppItems(fx)| == 0 then []
            else [BandTitle(y)] + Row(AppSlots(AppItems(fx), y, overlay), 40, 30)
  {
  }

  lemma CellsInParts(fx: Fixture, level: Level, overlay: OverlayMap, stubs: seq<string>, band: seq<Cell>, legend: Cell)
    requires band == AppBand(fx, level, stubs, overlay) && legend == LegendCell(fx, overlay)
    ensures Cells(fx, level, overlay, stubs) == Placed(fx, level, overlay, stubs) + band + [legend]
  {
  }

  method DrawnLegend(fx: Fixture, overlay: OverlayMap, bx: int, vx: int) returns (legend: Cell)
    requires bx == RowEnd(BoundarySlots(fx, overlay), 40, GAP_X) && vx == VNetX(|fx.vnets|)
    ensures legend == LegendCell(fx, overlay)
  {
    legend := Cell(Legend, Root, (if vx > bx then vx else bx) + 40, BOUNDARY_Y, 200, 170, Grey);
  }

  /** The two sets hold the same VNets. */
  ghost predicate SameVNets(a: set<CellId>, b: set<CellId>) {
    forall name :: Node(Vnet, name) in a <==> Node(Vnet, name) in b
  }

  lemma SameVNetsStill(a: set<CellId>, b: set<CellId>, id: CellId)
    requires SameVNets(a, b) && !(id.Node? && id.kind.Vnet?)
    ensures SameVNets(a + {id}, b)
  {
  }

  lemma AppSlotsOneMore(items: seq<AppItem>, a: AppItem, y: int, overlay: OverlayMap)
    ensures AppSlots(items + [a], y, overlay)
         == AppSlots(items, y, overlay) + [Slot(AppId(a), y, 170, 54, AppPaint(a, overlay))]
  {
  }

  lemma AppLinesOneMore(joined: seq<Line>, items: seq<AppItem>, a: AppItem, internet: bool, drawn: set<CellId>)
    ensures joined + AppLines(items + [a], internet, drawn)
         == joined + AppLines(items, internet, drawn)
            + if AppLine(a, internet, drawn).Some? then [AppLine(a, internet, drawn).value] else []
  {
    assert (items + [a])[..|items|] == items;
  }

  // ---------------------------------------------------------------- the canvas

  class Canvas {
    var cells: seq<Cell>
    var edges: seq<Connector>
    var vertexIds: set<CellId>
    var eseq: nat
    var seen: set<Pair>
    var stubIds: seq<string>
    ghost var lines: seq<Line>

    constructor ()
      ensures Valid() && cells == [] && lines == [] && seen == {} && stubIds == []
    {
      cells, edges, vertexIds, eseq := [], [], {}, 0;
      seen, stubIds, lines := {}, [], [];
    }

    ghost predicate Valid()
      reads this
    {
      vertexIds == Ids(cells) && eseq == |lines| && edges == Numbered(lines)
    }

    method Add(c: Cell)
      requires Valid()
      modifies this`cells, this`vertexIds
      ensures Valid() && cells == old(cells) + [c] && vertexIds == old(vertexIds) + {c.id}
    {
      IdsJoin(cells, [c]);
      cells := cells + [c];
      vertexIds := vertexIds + {c.id};
    }

    method Connect(prefix: Prefix, source: CellId, target: CellId)
      requires Valid()
      modifies this`edges, this`eseq, this`lines
      ensures Valid() && lines == old(lines) + [Line(prefix, source, target)]
    {
      eseq := eseq + 1;
      edges := edges + [Connector(Edge(prefix, eseq), source, target)];
      lines := lines + [Line(prefix, source, target)];
    }

    // -------------------------------------------------------------- rows

    /** A row under way: the slots placed so far follow `base`, and `x` is where the next one goes. */
    ghost predicate RowSoFar(base: seq<Cell>, slots: seq<Slot>, gap: int, x: int)
      reads this
    {
      Valid() && cells == base + Row(slots, 40, gap) && x == RowEnd(slots, 40, gap)
    }

    method Place(s: Slot, x: int, gap: int, ghost base: seq<Cell>, ghost slots: seq<Slot>) returns (next: int)
      requires RowSoFar(base, slots, gap, x)
      modifies this`cells, this`vertexIds
      ensures RowSoFar(base, slots + [s], gap, next) && vertexIds == old(vertexIds) + {s.id}
    {
      RowOneMore(slots, s, 40, gap);
      Add(Cell(s.id, Root, x, s.y, s.w, s.h, s.paint));
      next := x + s.w + gap;
    }

    method PlaceNamed(kind: Kind, names: seq<string>, w: int, x: int, ghost base: seq<Cell>, ghost slots: seq<Slot>)
      returns (bx: int)
      requires RowSoFar(base, slots, GAP_X, x)
      modifies this`cells, this`vertexIds
      ensures RowSoFar(base, slots + NamedSlots(kind, names, w), GAP_X, bx)
    {
      bx := x;
      assert slots + NamedSlots(kind, [], w) == slots;
      for i := 0 to |names|
        invariant RowSoFar(base, slots + NamedSlots(kind, names[..i], w), GAP_X, bx)
      {
        var s := Slot(Node(kind, names[i]), BOUNDARY_Y, w, 60, Grey);
        assert slots + NamedSlots(kind, names[..i + 1], w) == slots + NamedSlots(kind, names[..i], w) + [s];
        bx := Place(s, bx, GAP_X, base, slots + NamedSlots(kind, names[..i], w));
      }
      assert names[..|names|] == names;
    }

    method PlaceOrphans(pips: seq<PipDef>, overlay: OverlayMap, x: int, ghost base: seq<Cell>, ghost slots: seq<Slot>)
      returns (bx: int)
      requires RowSoFar(base, slots, GAP_X, x)
      modifies this`cells, this`vertexIds
      ensures RowSoFar(base, slots + OrphanSlots(pips, overlay), GAP_X, bx)
    {
      bx := x;
      assert slots + [] == slots;
      for i := 0 to |pips|
        invariant RowSoFar(base, slots + OrphanSlots(pips[..i], overlay), GAP_X, bx)
      {
        var p := pips[i];
        assert pips[..i + 1][..i] == pips[..i] && pips[..i + 1][i] == p;
        if !p.attached {
          var id := Node(Pip, PipRid(p));
          var s := Slot(id, BOUNDARY_Y, 150, 70, Painted(SeverityOf(overlay, id)));
          ghost var before := slots + OrphanSlots(pips[..i], overlay);
          assert slots + OrphanSlots(pips[..i + 1], overlay) == before + [s];
          bx := Place(s, bx, GAP_X, base, before);
        }
      }
      assert pips[..|pips|] == pips;
    }

    method DrawIngress(fx: Fixture) returns (bx: int, internet: bool)
      requires Valid() && cells == []
      modifies this`cells, this`vertexIds
      ensures RowSoFar([], InternetSlot(fx) + FirewallSlot(fx), GAP_X, bx)
      ensures internet == DrawsInternet(fx)
    {
      bx := 40;
      internet := DrawsInternet(fx);
      if internet {
        bx := Place(Slot(Internet, BOUNDARY_Y, 120, 60, Grey), bx, GAP_X, [], []);
      }
      if fx.firewall.Some? {
        bx := Place(Slot(Node(Fw, fx.firewall.value), BOUNDARY_Y, 140, 60, Grey), bx, GAP_X, [], InternetSlot(fx));
      }
    }

    method DrawBoundary(fx: Fixture, overlay: OverlayMap) returns (bx: int, internet: bool)
      requires Valid() && cells == []
      modifies this`cells, this`vertexIds
      ensures RowSoFar([], BoundarySlots(fx, overlay), GAP_X, bx)
      ensures internet == DrawsInternet(fx)
    {
      bx, internet := DrawIngress(fx);
      ghost var slots := InternetSlot(fx) + FirewallSlot(fx);
      bx := PlaceNamed(Gw, fx.gateways, 140, bx, [], slots);
      slots := slots + NamedSlots(Gw, fx.gateways, 140);
      bx := PlaceNamed(Er, fx.circuits, 150, bx, [], slots);
      slots := slots + NamedSlots(Er, fx.circuits, 150);
      bx := PlaceNamed(NatGw, fx.natGateways, 130, bx, [], slots);
      slots := slots + NamedSlots(NatGw, fx.natGateways, 130);
      bx := PlaceOrphans(fx.pips, overlay, bx, [], slots);
    }

    // -------------------------------------------------------------- the VNet row

    method DrawSubnet(nics: seq<NicDef>, v: string, sn: string, y: int, snics: seq<NicDef>, overlay: OverlayMap) returns (sh: int)
      requires Valid() && snics == NicsIn(nics, SubnetKey(v, sn))
      modifies this`cells, this`vertexIds
      ensures Valid() && cells == old(cells) + SubnetBlock(nics, v, sn, y, overlay)
      ensures sh == SubnetH(nics, SubnetKey(v, sn))
    {
      var sid := Node(Subnet, SubnetKey(v, sn));
      sh := 26 + |snics| * (NODE_H + 6) + 10;
      Add(Cell(sid, Node(Vnet, v), 20, y, SUB_W, sh, Grey));
      var ny := 26;
      ghost var base := cells;
      assert NicColumn([], sid, overlay) == [];
      for k := 0 to |snics|
        invariant Valid() && ny == 26 + k * (NODE_H + 6)
        invariant cells == base + NicColumn(snics[..k], sid, overlay)
      {
        var id := Node(Nic, NicRid(snics[k]));
        assert NicColumn(snics[..k + 1], sid, overlay) == NicColumn(snics[..k], sid, overlay) + [NicCell(snics[k], sid, k, overlay)];
        Add(Cell(id, sid, 10, ny, SUB_W - 20, NODE_H, Painted(SeverityOf(overlay, id))));
        ny := ny + NODE_H + 6;
      }
      assert snics[..|snics|] == snics;
    }

    method DrawSubnets(nics: seq<NicDef>, v: VNet, bySubnet: Index, overlay: OverlayMap)
      requires Valid() && forall k :: Lookup(bySubnet, k) == NicsIn(nics, k)
      modifies this`cells, this`vertexIds
      ensures Valid() && cells == old(cells) + SubnetBlocks(nics, v.name, v.subnets, overlay)
    {
      var cy := 70;
      ghost var base := cells;
      for i := 0 to |v.subnets|
        invariant Valid() && cy == SubnetY(nics, v.name, v.subnets[..i])
        invariant cells == base + SubnetBlocks(nics, v.name, v.subnets[..i], overlay)
      {
        SubnetsOneMore(nics, v.name, v.subnets, i, overlay, base);
        var sh := DrawSubnet(nics, v.name, v.subnets[i], cy, Lookup(bySubnet, SubnetKey(v.name, v.subnets[i])), overlay);
        cy := cy + sh + 10;
      }
      assert v.subnets[..|v.subnets|] == v.subnets;
    }

    method DrawVNet(fx: Fixture, v: VNet, level: Level, x: int, bySubnet: Index, byVNet: Index, overlay: OverlayMap)
      returns (vh: int)
      requires Valid() && (forall k :: Lookup(bySubnet, k) == NicsIn(fx.nics, k))
      requires forall k :: Lookup(byVNet, k) == NicsOf(fx.nics, k)
      modifies this`cells, this`vertexIds
      ensures Valid() && cells == old(cells) + VNetBlock(fx, v, level, x, overlay)
      ensures vh == VNetH(fx, v, level)
    {
      vh := VNetHeight(fx, v, level, bySubnet);
      var sev := VNetRollup(v.name, Lookup(byVNet, v.name), overlay);
      RollupFilters(fx.nics, v.name, overlay);
      Add(Cell(Node(Vnet, v.name), Root, x, VNET_Y, VNET_W, vh, Painted(sev)));
      if level.Mld? {
        DrawSubnets(fx.nics, v, bySubnet, overlay);
      }
    }

    /** The VNets drawn so far follow `base`. */
    ghost predicate VNetsSoFar(base: seq<Cell>, fx: Fixture, done: seq<VNet>, level: Level, overlay: OverlayMap, vx: int, maxBottom: int)
      reads this
    {
      && Valid() && cells == base + VNetBlocks(fx, done, level, overlay)
      && vx == VNetX(|done|) && maxBottom == MaxBottom(fx, done, level)
    }

    method DrawNextVNet(fx: Fixture, v: VNet, level: Level, x: int, bottom: int, bySubnet: Index, byVNet: Index,
                        overlay: OverlayMap, ghost base: seq<Cell>, ghost done: seq<VNet>)
      returns (vx: int, maxBottom: int)
      requires VNetsSoFar(base, fx, done, level, overlay, x, bottom)
      requires forall k :: Lookup(bySubnet, k) == NicsIn(fx.nics, k)
      requires forall k :: Lookup(byVNet, k) == NicsOf(fx.nics, k)
      modifies this`cells, this`vertexIds
      ensures VNetsSoFar(base, fx, done + [v], level, overlay, vx, maxBottom)
    {
      VNetsOneMore(fx, done, v, level, overlay, base);
      var vh := DrawVNet(fx, v, level, x, bySubnet, byVNet, overlay);
      maxBottom := if VNET_Y + vh > bottom then VNET_Y + vh else bottom;
      vx := x + VNET_W + GAP_X;
    }

    method DrawVNets(fx: Fixture, ordered: seq<VNet>, level: Level, overlay: OverlayMap) returns (vx: int, maxBottom: int)
      requires Valid()
      modifies this`cells, this`vertexIds
      ensures VNetsSoFar(old(cells), fx, ordered, level, overlay, vx, maxBottom)
    {
      var bySubnet, byVNet := IndexNics(fx.nics);
      vx, maxBottom := 40, VNET_Y;
      for i := 0 to |ordered|
        invariant VNetsSoFar(old(cells), fx, ordered[..i], level, overlay, vx, maxBottom)
      {
        assert ordered[..i + 1] == ordered[..i] + [ordered[i]];
        vx, maxBottom := DrawNextVNet(fx, ordered[i], level, vx, maxBottom, bySubnet, byVNet, overlay, old(cells), ordered[..i]);
      }
      assert ordered[..|ordered|] == ordered;
    }

    // -------------------------------------------------------------- peerings and stubs

    /** The peerings met so far are drawn, with the stubs they needed after `base`. */
    ghost predicate PeeredSoFar(base: seq<Cell>, y: int, names: set<string>, ps: seq<Pair>)
      reads this
    {
      && Valid() && seen == Keys(ps) && lines == PeerLines(ps, names)
      && StubbedSoFar(base, y, Stubs(ps, names))
    }

    ghost predicate StubbedSoFar(base: seq<Cell>, y: int, stubs: seq<string>)
      reads this
    {
      Valid() && stubIds == stubs && cells == base + Row(StubSlots(stubs, y), 40, 40)
    }

    method EndOf(name: string, y: int, names: set<string>, ghost base: seq<Cell>) returns (id: CellId)
      requires StubbedSoFar(base, y, stubIds)
      modifies this`cells, this`vertexIds, this`stubIds
      ensures StubbedSoFar(base, y, AddStub(old(stubIds), name, names))
      ensures id == EndId(name, names)
    {
      if name in names {
        return Node(Vnet, name);
      }
      id := Node(Ext, name);
      if name !in stubIds {
        StubRowEnd(stubIds, y);
        var s := Slot(id, y, 180, 60, Grey);
        assert StubSlots(stubIds + [name], y) == StubSlots(stubIds, y) + [s];
        var _ := Place(s, 40 + |stubIds| * (180 + 40), 40, base, StubSlots(stubIds, y));
        stubIds := stubIds + [name];
      }
    }

    method PeerEdge(l: Link, y: int, names: set<string>, ghost base: seq<Cell>, ghost links: seq<Link>)
      requires PeeredSoFar(base, y, names, Peered(links))
      modifies this
      ensures PeeredSoFar(base, y, names, Peered(links + [l]))
    {
      PeeredOneMore(links, l, names);
      if !Given(l.local) || !Given(l.remote) || l.local == l.remote {
        return;
      }
      var p := Pair(l.local.value, l.remote.value);
      if Key(p) in seen {
        return;
      }
      seen := seen + {Key(p)};
      var src := EndOf(p.a, y, names, base);
      var tgt := EndOf(p.b, y, names, base);
      Connect(Peer, src, tgt);
    }

    method DrawPeerings(fx: Fixture, y: int, names: set<string>)
      requires Valid() && lines == [] && seen == {} && stubIds == []
      modifies this
      ensures PeeredSoFar(old(cells), y, names, Peered(Links(fx)))
    {
      ghost var base := cells;
      ghost var links: seq<Link> := [];
      for i := 0 to |fx.vnets|
        invariant links == LocalLinks(fx.vnets[..i])
        invariant PeeredSoFar(base, y, names, Peered(links))
      {
        assert fx.vnets[..i + 1][..i] == fx.vnets[..i];
        var own := PeeringsOf(fx.vnets[i]);
        PeerEdges(own, y, names, base, links);
        links := links + own;
      }
      assert fx.vnets[..|fx.vnets|] == fx.vnets;
      PeerEdges(fx.crossPeerings, y, names, base, links);
    }

    method PeerEdges(more: seq<Link>, y: int, names: set<string>, ghost base: seq<Cell>, ghost links: seq<Link>)
      requires PeeredSoFar(base, y, names, Peered(links))
      modifies this
      ensures PeeredSoFar(base, y, names, Peered(links + more))
    {
      assert links + more[..0] == links;
      for i := 0 to |more|
        invariant PeeredSoFar(base, y, names, Peered(links + more[..i]))
      {
        assert links + more[..i + 1] == links + more[..i] + [more[i]];
        PeerEdge(more[i], y, names, base, links + more[..i]);
      }
      assert more[..|more|] == more;
    }

    // -------------------------------------------------------------- the other lines

    method DrawOverlaps(overlay: OverlayMap, order: seq<CellId>, names: set<string>)
      requires Valid() && forall id :: id in order ==> id in overlay
      modifies this`edges, this`eseq, this`lines
      ensures Valid() && lines == old(lines) + OverlapLines(Overlaps(FindingsIn(overlay, order), names))
    {
      var cidrSeen: set<Pair> := {};
      for i := 0 to |order|
        invariant OverlapsSoFar(old(lines), FindingsIn(overlay, order[..i]), names, cidrSeen)
      {
        assert order[..i + 1][..i] == order[..i];
        cidrSeen := DrawEntryOverlaps(overlay[order[i]].findings, names, cidrSeen, old(lines), FindingsIn(overlay, order[..i]));
      }
      assert order[..|order|] == order;
    }

    method DrawEntryOverlaps(more: seq<Finding>, names: set<string>, cidrSeen: set<Pair>, ghost base: seq<Line>, ghost fs: seq<Finding>)
      returns (cidrSeen': set<Pair>)
      requires OverlapsSoFar(base, fs, names, cidrSeen)
      modifies this`edges, this`eseq, this`lines
      ensures OverlapsSoFar(base, fs + more, names, cidrSeen')
    {
      cidrSeen' := cidrSeen;
      assert fs + more[..0] == fs;
      for i := 0 to |more|
        invariant OverlapsSoFar(base, fs + more[..i], names, cidrSeen')
      {
        assert fs + more[..i + 1] == fs + more[..i] + [more[i]];
        cidrSeen' := DrawOverlap(more[i], names, cidrSeen', base, fs + more[..i]);
      }
      assert more[..|more|] == more;
    }

    /** The overlaps met so far are drawn after `base`. */
    ghost predicate OverlapsSoFar(base: seq<Line>, fs: seq<Finding>, names: set<string>, cidrSeen: set<Pair>)
      reads this
    {
      Valid() && cidrSeen == Keys(Overlaps(fs, names)) && lines == base + OverlapLines(Overlaps(fs, names))
    }

    method DrawOverlap(f: Finding, names: set<string>, cidrSeen: set<Pair>, ghost base: seq<Line>, ghost fs: seq<Finding>)
      returns (cidrSeen': set<Pair>)
      requires OverlapsSoFar(base, fs, names, cidrSeen)
      modifies this`edges, this`eseq, this`lines
      ensures OverlapsSoFar(base, fs + [f], names, cidrSeen')
    {
      cidrSeen' := cidrSeen;
      OverlapsOneMore(fs, f, names);
      if f.kind.CidrOverlap? {
        var p := OverlapPair(f);
        if Key(p) !in cidrSeen && p.a in names && p.b in names {
          cidrSeen' := cidrSeen + {Key(p)};
          Connect(Cidr, Node(Vnet, p.a), Node(Vnet, p.b));
        }
      }
    }

    method DrawExposure(nics: seq<NicDef>, level: Level, overlay: OverlayMap)
      requires Valid()
      modifies this`edges, this`eseq, this`lines
      ensures Valid() && lines == old(lines) + ExposureLines(nics, level, overlay, Ids(cells))
    {
      for i := 0 to |nics|
        invariant Valid() && lines == old(lines) + ExposureLines(nics[..i], level, overlay, Ids(cells))
      {
        assert nics[..i + 1][..i] == nics[..i] && nics[..i + 1][i] == nics[i];
        if Exposed(overlay, Node(Nic, nics[i].name)) {
          var target := ExposureTarget(nics[i], level);
          if target in vertexIds {
            Connect(Exp, Internet, target);
          }
        }
      }
      assert nics[..|nics|] == nics;
    }

    method DrawHubLinks(fx: Fixture, ordered: seq<VNet>)
      requires Valid() && ordered == Ordered(fx.vnets)
      modifies this`edges, this`eseq, this`lines
      ensures Valid() && lines == old(lines) + HubLines(fx)
    {
      if |ordered| > 0 {
        var hub := ordered[0].name;
        for i := 0 to |fx.gateways|
          invariant Valid() && lines == old(lines) + GatewayLines(fx.gateways[..i], hub)
        {
          assert GatewayLines(fx.gateways[..i + 1], hub)
              == GatewayLines(fx.gateways[..i], hub) + [Line(GwLink, Node(Gw, fx.gateways[i]), Node(Vnet, hub))];
          Connect(GwLink, Node(Gw, fx.gateways[i]), Node(Vnet, hub));
        }
        assert fx.gateways[..|fx.gateways|] == fx.gateways;
        if fx.firewall.Some? {
          Connect(FwLink, Node(Fw, fx.firewall.value), Node(Vnet, hub));
        }
      }
    }

    // -------------------------------------------------------------- the application band

    /** The items placed so far follow `base`, and their lines follow `joined`. */
    ghost predicate BandSoFar(base: seq<Cell>, joined: seq<Line>, items: seq<AppItem>, y: int, internet: bool,
                              overlay: OverlayMap, placed: set<CellId>, ax: int)
      reads this
    {
      && RowSoFar(base, AppSlots(items, y, overlay), 30, ax)
      && lines == joined + AppLines(items, internet, placed)
      && SameVNets(vertexIds, placed)
    }

    method DrawItem(a: AppItem, y: int, x: int, internet: bool, overlay: OverlayMap, ghost base: seq<Cell>,
                    ghost joined: seq<Line>, ghost items: seq<AppItem>, ghost placed: set<CellId>) returns (ax: int)
      requires BandSoFar(base, joined, items, y, internet, overlay, placed, x) && IsAppKind(a.kind)
      modifies this`cells, this`vertexIds, this`edges, this`eseq, this`lines
      ensures BandSoFar(base, joined, items + [a], y, internet, overlay, placed, ax)
    {
      ax := PlaceItem(a, y, x, overlay, base, items, placed);
      LinkItem(a, internet, joined, items, placed);
    }

    method PlaceItem(a: AppItem, y: int, x: int, overlay: OverlayMap, ghost base: seq<Cell>, ghost items: seq<AppItem>,
                     ghost placed: set<CellId>) returns (ax: int)
      requires RowSoFar(base, AppSlots(items, y, overlay), 30, x) && SameVNets(vertexIds, placed) && IsAppKind(a.kind)
      modifies this`cells, this`vertexIds
      ensures RowSoFar(base, AppSlots(items + [a], y, overlay), 30, ax) && SameVNets(vertexIds, placed)
    {
      AppSlotsOneMore(items, a, y, overlay);
      SameVNetsStill(vertexIds, placed, AppId(a));
      ax := Place(Slot(AppId(a), y, 170, 54, AppPaint(a, overlay)), x, 30, base, AppSlots(items, y, overlay));
    }

    method LinkItem(a: AppItem, internet: bool, ghost joined: seq<Line>, ghost items: seq<AppItem>, ghost placed: set<CellId>)
      requires Valid() && lines == joined + AppLines(items, internet, placed) && SameVNets(vertexIds, placed)
      modifies this`edges, this`eseq, this`lines
      ensures Valid() && lines == joined + AppLines(items + [a], internet, placed)
    {
      AppLinesOneMore(joined, items, a, internet, placed);
      if a.isEdge && internet {
        Connect(AppEdge, Internet, AppId(a));
      } else if Given(a.subnet) {
        var vn := BeforeSlash(a.subnet.value);
        if Node(Vnet, vn) in vertexIds {
          Connect(AppEdge, AppId(a), Node(Vnet, vn));
        }
      }
    }

    method DrawItems(items: seq<AppItem>, y: int, internet: bool, overlay: OverlayMap, ghost base: seq<Cell>,
                     ghost joined: seq<Line>, ghost placed: set<CellId>)
      requires BandSoFar(base, joined, [], y, internet, overlay, placed, 40) && forall a :: a in items ==> IsAppKind(a.kind)
      modifies this`cells, this`vertexIds, this`edges, this`eseq, this`lines
      ensures Valid() && cells == base + Row(AppSlots(items, y, overlay), 40, 30)
      ensures lines == joined + AppLines(items, internet, placed)
    {
      var ax := 40;
      for i := 0 to |items|
        invariant BandSoFar(base, joined, items[..i], y, internet, overlay, placed, ax)
      {
        assert items[..i + 1] == items[..i] + [items[i]];
        ax := DrawItem(items[i], y, ax, internet, overlay, base, joined, items[..i], placed);
      }
      assert items[..|items|] == items;
    }

    method DrawBand(items: seq<AppItem>, y: int, internet: bool, overlay: OverlayMap)
      requires Valid() && forall a :: a in items ==> IsAppKind(a.kind)
      modifies this`cells, this`vertexIds, this`edges, this`eseq, this`lines
      ensures Valid() && lines == old(lines) + AppLines(items, internet, Ids(old(cells)))
      ensures cells == old(cells) + if |items| == 0 then []
                                    else [BandTitle(y)] + Row(AppSlots(items, y, overlay), 40, 30)
    {
      if |items| == 0 {
        return;
      }
      SameVNetsStill(Ids(cells), Ids(cells), AppLabel);
      Add(BandTitle(y));
      DrawItems(items, y, internet, overlay, cells, lines, Ids(old(cells)));
      AppendTwice(old(cells), [BandTitle(y)], Row(AppSlots(items, y, overlay), 40, 30));
    }

    // -------------------------------------------------------------- the page

    method DrawStubs(fx: Fixture, level: Level, overlay: OverlayMap, maxBottom: int)
      requires Valid() && lines == [] && seen == {} && stubIds == []
      requires maxBottom == MaxBottom(fx, Ordered(fx.vnets), level)
      requires cells == [] + Row(BoundarySlots(fx, overlay), 40, GAP_X) + VNetBlocks(fx, Ordered(fx.vnets), level, overlay)
      modifies this
      ensures Valid() && cells == Placed(fx, level, overlay, StubsOf(fx)) && stubIds == StubsOf(fx)
      ensures lines == PeerLines(Peered(Links(fx)), VNetNames(fx.vnets))
    {
      PlacedInParts(fx, level, overlay, maxBottom + 60, StubsOf(fx));
      DrawPeerings(fx, maxBottom + 60, VNetNames(fx.vnets));
    }

    method DrawPlaced(fx: Fixture, level: Level, overlay: OverlayMap, ordered: seq<VNet>)
      returns (bx: int, vx: int, maxBottom: int, internet: bool)
      requires Valid() && cells == [] && lines == [] && seen == {} && stubIds == [] && ordered == Ordered(fx.vnets)
      modifies this
      ensures Valid() && cells == Placed(fx, level, overlay, StubsOf(fx)) && stubIds == StubsOf(fx)
      ensures lines == PeerLines(Peered(Links(fx)), VNetNames(fx.vnets))
      ensures bx == RowEnd(BoundarySlots(fx, overlay), 40, GAP_X) && vx == VNetX(|fx.vnets|)
      ensures maxBottom == MaxBottom(fx, ordered, level) && internet == DrawsInternet(fx)
    {
      bx, internet := DrawBoundary(fx, overlay);
      vx, maxBottom := DrawVNets(fx, ordered, level, overlay);
      DrawStubs(fx, level, overlay, maxBottom);
    }

    method DrawLines(fx: Fixture, level: Level, overlay: OverlayMap, order: seq<CellId>, ordered: seq<VNet>, internet: bool)
      requires Valid() && (forall id :: id in order ==> id in overlay) && ordered == Ordered(fx.vnets)
      requires internet == DrawsInternet(fx)
      requires cells == Placed(fx, level, overlay, StubsOf(fx))
      modifies this`edges, this`eseq, this`lines
      ensures Valid() && lines == old(lines) + OverlapLinesOf(fx, overlay, order) + ExposureLinesOf(fx, level, overlay) + HubLines(fx)
    {
      DrawOverlaps(overlay, order, VNetNames(fx.vnets));
      DrawIngressPaths(fx, level, overlay, internet);
      DrawHubLinks(fx, ordered);
    }

    method DrawIngressPaths(fx: Fixture, level: Level, overlay: OverlayMap, internet: bool)
      requires Valid() && internet == DrawsInternet(fx) && cells == Placed(fx, level, overlay, StubsOf(fx))
      modifies this`edges, this`eseq, this`lines
      ensures Valid() && lines == old(lines) + ExposureLinesOf(fx, level, overlay)
    {
      if internet {
        DrawExposure(fx.nics, level, overlay);
      } else {
        assert lines == old(lines) + [];
      }
    }

    method DrawApplications(fx: Fixture, level: Level, overlay: OverlayMap, maxBottom: int, internet: bool)
      requires Valid() && cells == Placed(fx, level, overlay, StubsOf(fx)) && stubIds == StubsOf(fx)
      requires maxBottom == MaxBottom(fx, Ordered(fx.vnets), level) && internet == DrawsInternet(fx)
      modifies this`cells, this`vertexIds, this`edges, this`eseq, this`lines
      ensures Valid() && cells == old(cells) + AppBand(fx, level, StubsOf(fx), overlay)
      ensures lines == old(lines) + AppLinesOf(fx, level, overlay)
    {
      var items := AppItems(fx);
      AppItemKinds(fx);
      var appY := if |stubIds| > 0 then maxBottom + 60 + 140 else maxBottom + 90;
      BandInParts(fx, level, StubsOf(fx), overlay, appY);
      DrawBand(items, appY, internet, overlay);
    }

    method DrawRest(fx: Fixture, level: Level, overlay: OverlayMap, bx: int, vx: int, maxBottom: int, internet: bool)
      requires Valid() && cells == Placed(fx, level, overlay, StubsOf(fx)) && stubIds == StubsOf(fx)
      requires bx == RowEnd(BoundarySlots(fx, overlay), 40, GAP_X) && vx == VNetX(|fx.vnets|)
      requires maxBottom == MaxBottom(fx, Ordered(fx.vnets), level) && internet == DrawsInternet(fx)
      modifies this
      ensures Valid() && cells == Cells(fx, level, overlay, StubsOf(fx))
      ensures lines == old(lines) + AppLinesOf(fx, level, overlay)
    {
      DrawApplications(fx, level, overlay, maxBottom, internet);
      var legend := DrawnLegend(fx, overlay, bx, vx);
      CellsInParts(fx, level, overlay, StubsOf(fx), AppBand(fx, level, StubsOf(fx), overlay), legend);
      Add(legend);
    }
  }

  // ---------------------------------------------------------------- the whole diagram

  method Build(fx: Fixture, level: Level, overlay: OverlayMap, order: seq<CellId>) returns (canvas: Canvas)
    requires forall id :: id in order ==> id in overlay
    ensures canvas.cells == Cells(fx, level, overlay, StubsOf(fx))
    ensures canvas.edges == Numbered(Lines(fx, level, overlay, order))
    ensures forall i :: 0 <= i < |canvas.edges| ==> canvas.edges[i].id.n == i + 1
    ensures canvas.vertexIds == Ids(canvas.cells)
  {
    canvas := new Canvas();
    var ordered := Ordered(fx.vnets);
    var bx, vx, maxBottom, internet := canvas.DrawPlaced(fx, level, overlay, ordered);
    canvas.DrawLines(fx, level, overlay, order, ordered, internet);
    canvas.DrawRest(fx, level, overlay, bx, vx, maxBottom, internet);
  }
}
