/** The hub of an estate: where the VNets stand, and which of them gateways and the firewall are joined to. */
module Hub {
  import opened Prelude
  import opened Ordering
  import opened CellIds
  import opened Overlay
  import opened Fixtures
  import opened Diagram
  import opened DiagramContents
  import opened DiagramEdges
  import opened DiagramLayout

  /** No VNet has more peerings than number `i`, and no earlier one as many. */
  ghost predicate IsHub(vnets: seq<VNet>, i: int) {
    && 0 <= i < |vnets|
    && (forall j :: 0 <= j < |vnets| ==> |vnets[j].peerings| <= |vnets[i].peerings|)
    && (forall j :: 0 <= j < i ==> |vnets[j].peerings| < |vnets[i].peerings|)
  }

  lemma MostPeeredFirst()
    ensures Ranking(PeeringCountDescending)
  {
  }

  lemma HubIsFirst(vnets: seq<VNet>) returns (i: nat)
    requires |vnets| > 0
    ensures IsHub(vnets, i) && Ordered(vnets)[0] == vnets[i]
  {
    MostPeeredFirst();
    i := SortedHead(PeeringCountDescending, vnets);
    forall j | 0 <= j < |vnets| ensures |vnets[j].peerings| <= |vnets[i].peerings| {
      assert PeeringCountDescending(vnets[i], vnets[j]);
    }
    forall j | 0 <= j < i ensures |vnets[j].peerings| < |vnets[i].peerings| {
      assert !PeeringCountDescending(vnets[j], vnets[i]);
    }
  }

  // ---------------------------------------------------------------- lines to the hub

  predicate FromGateway(l: Line) {
    l.prefix.GwLink?
  }

  predicate FromFirewall(l: Line) {
    l.prefix.FwLink?
  }

  /** None of the lines comes from a gateway or the firewall. */
  ghost predicate OtherLines(lines: seq<Line>) {
    forall l :: l in lines ==> !FromGateway(l) && !FromFirewall(l)
  }

  lemma PairsAreOther(fx: Fixture, overlay: OverlayMap, order: seq<CellId>)
    requires forall id :: id in order ==> id in overlay
    ensures OtherLines(PeerLines(Peered(Links(fx)), VNetNames(fx.vnets))) && OtherLines(OverlapLinesOf(fx, overlay, order))
  {
  }

  lemma ExposuresAreOther(fx: Fixture, level: Level, overlay: OverlayMap)
    ensures OtherLines(ExposureLinesOf(fx, level, overlay))
  {
    ExposureLineIff(fx.nics, level, overlay, Ids(Placed(fx, level, overlay, StubsOf(fx))), Root);
  }

  lemma {:induction false} AppLinesAreOther(items: seq<AppItem>, internet: bool, drawn: set<CellId>)
    ensures OtherLines(AppLines(items, internet, drawn))
  {
    if |items| > 0 {
      AppLinesAreOther(items[..|items| - 1], internet, drawn);
    }
  }

  lemma OnlyHubLines(keep: Line -> bool, peer: seq<Line>, overlap: seq<Line>, exposed: seq<Line>, hub: seq<Line>, app: seq<Line>)
    requires keep == FromGateway || keep == FromFirewall
    requires OtherLines(peer) && OtherLines(overlap) && OtherLines(exposed) && OtherLines(app)
    ensures Filter(keep, peer + overlap + exposed + hub + app) == Filter(keep, hub)
  {
    FilterJoin(keep, peer + overlap + exposed + hub, app);
    FilterJoin(keep, peer + overlap + exposed, hub);
    FilterNone(keep, peer + overlap + exposed);
    FilterNone(keep, app);
    assert [] + Filter(keep, hub) + [] == Filter(keep, hub);
  }

  /** Each gateway, and the firewall if there is one, has exactly one line, to the hub; without VNets there is none. */
  lemma GatewaysJoinHub(fx: Fixture, level: Level, overlay: OverlayMap, order: seq<CellId>)
    requires forall id :: id in order ==> id in overlay
    ensures |fx.vnets| == 0 ==> forall l :: l in Lines(fx, level, overlay, order) ==> !l.prefix.GwLink? && !l.prefix.FwLink?
    ensures |fx.vnets| > 0 ==> exists i :: IsHub(fx.vnets, i) && JoinedTo(Lines(fx, level, overlay, order), fx, fx.vnets[i].name)
  {
    if |fx.vnets| == 0 {
      NoHubNoLines(fx, level, overlay, order);
    } else {
      var i := HubIsFirst(fx.vnets);
      HubLinesJoin(fx, level, overlay, order, fx.vnets[i].name);
    }
  }

  lemma NoHubNoLines(fx: Fixture, level: Level, overlay: OverlayMap, order: seq<CellId>)
    requires (forall id :: id in order ==> id in overlay) && |fx.vnets| == 0
    ensures OtherLines(Lines(fx, level, overlay, order))
  {
    PairsAreOther(fx, overlay, order);
    ExposuresAreOther(fx, level, overlay);
    AppLinesAreOther(AppItems(fx), DrawsInternet(fx), Ids(Placed(fx, level, overlay, StubsOf(fx))));
  }

  /** The lines of gateways are one for each, in order, to that VNet, and so is the firewall's. */
  ghost predicate JoinedTo(lines: seq<Line>, fx: Fixture, vnet: string) {
    && |Filter(FromGateway, lines)| == |fx.gateways|
    && (forall k :: 0 <= k < |fx.gateways| ==>
          && Filter(FromGateway, lines)[k].source == Node(Gw, fx.gateways[k])
          && Filter(FromGateway, lines)[k].target == Node(Vnet, vnet))
    && |Filter(FromFirewall, lines)| == (if fx.firewall.Some? then 1 else 0)
    && (fx.firewall.Some? ==>
          && Filter(FromFirewall, lines)[0].source == Node(Fw, fx.firewall.value)
          && Filter(FromFirewall, lines)[0].target == Node(Vnet, vnet))
  }

  function FirewallLines(fx: Fixture, hub: string): seq<Line> {
    if fx.firewall.Some? then [Line(FwLink, Node(Fw, fx.firewall.value), Node(Vnet, hub))] else []
  }

  lemma HubLinesJoin(fx: Fixture, level: Level, overlay: OverlayMap, order: seq<CellId>, hub: string)
    requires forall id :: id in order ==> id in overlay
    requires |fx.vnets| > 0 && Ordered(fx.vnets)[0].name == hub
    ensures JoinedTo(Lines(fx, level, overlay, order), fx, hub)
  {
    var gws, fws := GatewayLines(fx.gateways, hub), FirewallLines(fx, hub);
    HubLinesOnly(FromGateway, fx, level, overlay, order, gws, fws);
    HubLinesOnly(FromFirewall, fx, level, overlay, order, gws, fws);
    KeptOfBoth(fx, hub);
    JoinedBy(Lines(fx, level, overlay, order), fx, hub);
  }

  lemma KeptOfBoth(fx: Fixture, hub: string)
    ensures var gws, fws := GatewayLines(fx.gateways, hub), FirewallLines(fx, hub);
            && Filter(FromGateway, gws) + Filter(FromGateway, fws) == gws
            && Filter(FromFirewall, gws) + Filter(FromFirewall, fws) == fws
  {
    var gws, fws := GatewayLines(fx.gateways, hub), FirewallLines(fx, hub);
    FilterEvery(FromGateway, gws);
    FilterNone(FromGateway, fws);
    FilterNone(FromFirewall, gws);
    FilterEvery(FromFirewall, fws);
  }

  lemma JoinedBy(lines: seq<Line>, fx: Fixture, hub: string)
    requires Filter(FromGateway, lines) == GatewayLines(fx.gateways, hub)
    requires Filter(FromFirewall, lines) == FirewallLines(fx, hub)
    ensures JoinedTo(lines, fx, hub)
  {
  }

  lemma HubLinesOnly(keep: Line -> bool, fx: Fixture, level: Level, overlay: OverlayMap, order: seq<CellId>,
                     gws: seq<Line>, fws: seq<Line>)
    requires (forall id :: id in order ==> id in overlay) && HubLines(fx) == gws + fws
    requires keep == FromGateway || keep == FromFirewall
    ensures Filter(keep, Lines(fx, level, overlay, order)) == Filter(keep, gws) + Filter(keep, fws)
  {
    PairsAreOther(fx, overlay, order);
    ExposuresAreOther(fx, level, overlay);
    AppLinesAreOther(AppItems(fx), DrawsInternet(fx), Ids(Placed(fx, level, overlay, StubsOf(fx))));
    OnlyHubLines(keep, PeerLines(Peered(Links(fx)), VNetNames(fx.vnets)), OverlapLinesOf(fx, overlay, order),
                 ExposureLinesOf(fx, level, overlay), HubLines(fx), AppLinesOf(fx, level, overlay));
    FilterJoin(keep, gws, fws);
  }

  // ---------------------------------------------------------------- where the VNets stand

  /** Number `i` has more peerings than number `j`, or as many and comes earlier. */
  ghost predicate StandsBefore(vnets: seq<VNet>, i: int, j: int)
    requires 0 <= i < |vnets| && 0 <= j < |vnets|
  {
    |vnets[i].peerings| > |vnets[j].peerings| || (|vnets[i].peerings| == |vnets[j].peerings| && i < j)
  }

  lemma PlaceOf(vnets: seq<VNet>, i: nat) returns (k: nat)
    requires i < |vnets|
    ensures k < |Ordered(vnets)| && Ordered(vnets)[k] == vnets[i]
  {
    SameElements(vnets, Ordered(vnets));
    assert vnets[i] in vnets;
    k :| 0 <= k < |Ordered(vnets)| && Ordered(vnets)[k] == vnets[i];
  }

  lemma PlacesInOrder(vnets: seq<VNet>, i: nat, j: nat, a: nat, b: nat)
    requires KeysDistinct(VNetName, vnets) && i < |vnets| && j < |vnets| && StandsBefore(vnets, i, j)
    requires a < |vnets| && b < |vnets| && Ordered(vnets)[a] == vnets[i] && Ordered(vnets)[b] == vnets[j]
    ensures a < b
  {
    var row := Ordered(vnets);
    KeysDistinctPermutation(VNetName, vnets, row);
    MostPeeredFirst();
    SortSorts(PeeringCountDescending, vnets);
    if |vnets[i].peerings| == |vnets[j].peerings| {
      assert Precedes(vnets, vnets[i], vnets[j]);
      SortKeepsOrder(PeeringCountDescending, vnets, vnets[i], vnets[j]);
      var p, q :| 0 <= p < q < |row| && row[p] == vnets[i] && row[q] == vnets[j];
      SamePlace(row, p, a);
      SamePlace(row, q, b);
    }
    assert b < a ==> PeeringCountDescending(row[b], row[a]);
    SamePlace(vnets, i, j);
  }

  lemma SamePlace(vnets: seq<VNet>, p: nat, q: nat)
    requires KeysDistinct(VNetName, vnets) && p < |vnets| && q < |vnets|
    ensures vnets[p].name == vnets[q].name ==> p == q
  {
    assert p < q ==> VNetName(vnets[p]) != VNetName(vnets[q]);
    assert q < p ==> VNetName(vnets[q]) != VNetName(vnets[p]);
  }

  predicate IsVNetCell(c: Cell) {
    c.id.Node? && c.id.kind.Vnet?
  }

  /** A VNet's cell is the one made at its place in the row. */
  lemma {:induction false} VNetCellAt(fx: Fixture, vs: seq<VNet>, level: Level, overlay: OverlayMap, c: Cell) returns (k: nat)
    requires c in VNetBlocks(fx, vs, level, overlay) && IsVNetCell(c)
    ensures k < |vs| && c == VNetCell(fx, vs[k], level, VNetX(k), overlay)
    decreases |vs|
  {
    var n := |vs| - 1;
    if c in VNetBlocks(fx, vs[..n], level, overlay) {
      k := VNetCellAt(fx, vs[..n], level, overlay, c);
    } else {
      k := n;
      VNetBlockMembers(fx, vs[n], level, VNetX(n), overlay);
    }
  }

  lemma NoVNetOnBoundary(fx: Fixture, overlay: OverlayMap, c: Cell)
    requires c in Row(BoundarySlots(fx, overlay), 40, GAP_X)
    ensures !IsVNetCell(c)
  {
    RowShows(BoundarySlots(fx, overlay), 40, GAP_X, c.id);
    BoundarySlotFor(fx, overlay, c.id);
  }

  lemma NoVNetAmongStubs(stubs: seq<string>, y: int, c: Cell)
    requires c in Row(StubSlots(stubs, y), 40, 40)
    ensures !IsVNetCell(c)
  {
    StubsShow(stubs, y, c.id);
  }

  lemma NoVNetInBand(fx: Fixture, level: Level, overlay: OverlayMap, stubs: seq<string>, c: Cell)
    requires c in AppBand(fx, level, stubs, overlay)
    ensures !IsVNetCell(c)
  {
    AppBandShows(fx, level, stubs, overlay, c.id);
    AppItemKinds(fx);
  }

  lemma InTheRow(fx: Fixture, level: Level, overlay: OverlayMap, stubs: seq<string>, c: Cell)
    requires c in Cells(fx, level, overlay, stubs) && IsVNetCell(c)
    ensures c in VNetBlocks(fx, Ordered(fx.vnets), level, overlay)
  {
    if c in Row(BoundarySlots(fx, overlay), 40, GAP_X) {
      NoVNetOnBoundary(fx, overlay, c);
    } else if c in Row(StubSlots(stubs, StubY(fx, level)), 40, 40) {
      NoVNetAmongStubs(stubs, StubY(fx, level), c);
    } else if c in AppBand(fx, level, stubs, overlay) {
      NoVNetInBand(fx, level, overlay, stubs, c);
    }
  }

  /** Of two drawn VNets the one with more peerings stands left, and on equal counts the earlier one. */
  lemma MorePeeredStandsLeft(fx: Fixture, level: Level, overlay: OverlayMap, stubs: seq<string>, i: nat, j: nat, c: Cell, d: Cell)
    requires UniquelyNamed(fx) && i < |fx.vnets| && j < |fx.vnets| && StandsBefore(fx.vnets, i, j)
    requires c in Cells(fx, level, overlay, stubs) && c.id == Node(Vnet, fx.vnets[i].name)
    requires d in Cells(fx, level, overlay, stubs) && d.id == Node(Vnet, fx.vnets[j].name)
    ensures 40 <= c.x && c.x + c.w < d.x && c.y == d.y
  {
    InTheRow(fx, level, overlay, stubs, c);
    InTheRow(fx, level, overlay, stubs, d);
    var a := VNetCellAt(fx, Ordered(fx.vnets), level, overlay, c);
    var b := VNetCellAt(fx, Ordered(fx.vnets), level, overlay, d);
    AtOwnPlace(fx.vnets, i, a);
    AtOwnPlace(fx.vnets, j, b);
    PlacesInOrder(fx.vnets, i, j, a, b);
  }

  lemma AtOwnPlace(vnets: seq<VNet>, i: nat, a: nat)
    requires KeysDistinct(VNetName, vnets) && i < |vnets| && a < |vnets| && Ordered(vnets)[a].name == vnets[i].name
    ensures Ordered(vnets)[a] == vnets[i]
  {
    var k := PlaceOf(vnets, i);
    KeysDistinctPermutation(VNetName, vnets, Ordered(vnets));
    SamePlace(Ordered(vnets), a, k);
  }
}
