/** The lines of a diagram, told from the fixture and the findings alone. */
module FixtureLines {
  import opened Prelude
  import opened Ordering
  import opened CellIds
  import opened Overlay
  import opened Fixtures
  import opened Diagram
  import opened DiagramContents
  import opened DiagramEdges

  // ---------------------------------------------------------------- peerings

  /** A VNet's own peering, or one across subscriptions, leads from `a` to `b`. */
  ghost predicate PeersWith(fx: Fixture, a: string, b: string) {
    || (exists v :: v in fx.vnets && v.name == a && Some(b) in v.peerings)
    || Link(Some(a), Some(b)) in fx.crossPeerings
  }

  lemma {:induction false} LocalLinksAre(vnets: seq<VNet>, l: Link)
    ensures l in LocalLinks(vnets) <==> exists v :: v in vnets && l.local == Some(v.name) && l.remote in v.peerings
  {
    if |vnets| > 0 {
      var init, last := vnets[..|vnets| - 1], vnets[|vnets| - 1];
      assert vnets == init + [last];
      LocalLinksAre(init, l);
      PeeringsAre(last, l);
    }
  }

  lemma PeeringsAre(v: VNet, l: Link)
    ensures l in PeeringsOf(v) <==> l.local == Some(v.name) && l.remote in v.peerings
  {
    if l.local == Some(v.name) && l.remote in v.peerings {
      var i :| 0 <= i < |v.peerings| && v.peerings[i] == l.remote;
      assert PeeringsOf(v)[i] == l;
    }
  }

  lemma LinkIsPeering(fx: Fixture, a: string, b: string)
    ensures Link(Some(a), Some(b)) in Links(fx) <==> PeersWith(fx, a, b)
  {
    LocalLinksAre(fx.vnets, Link(Some(a), Some(b)));
  }

  lemma NamedEnds(l: Link, q: Pair)
    requires q.a != "" && q.b != "" && q.a != q.b
    ensures Ends(l).Some? && Key(Ends(l).value) == Key(q) <==>
            l == Link(Some(q.a), Some(q.b)) || l == Link(Some(q.b), Some(q.a))
  {
    if Ends(l).Some? {
      KeyIsUnordered(Ends(l).value, q);
    }
    KeyIsUnordered(q, Pair(q.b, q.a));
  }

  lemma PeersIffPeering(fx: Fixture, q: Pair)
    requires q.a != "" && q.b != "" && q.a != q.b
    ensures Peers(Links(fx), Key(q)) <==> PeersWith(fx, q.a, q.b) || PeersWith(fx, q.b, q.a)
  {
    LinkIsPeering(fx, q.a, q.b);
    LinkIsPeering(fx, q.b, q.a);
    forall l ensures Ends(l).Some? && Key(Ends(l).value) == Key(q) <==>
                     l == Link(Some(q.a), Some(q.b)) || l == Link(Some(q.b), Some(q.a))
    {
      NamedEnds(l, q);
    }
    NamedEnds(Link(Some(q.a), Some(q.b)), q);
    NamedEnds(Link(Some(q.b), Some(q.a)), q);
  }

  /** The cell that stands for a name: its VNet, or a stub if the fixture has none of that name. */
  ghost predicate StandsFor(fx: Fixture, id: CellId, name: string) {
    if exists v :: v in fx.vnets && v.name == name then id == Node(Vnet, name) else id == Node(Ext, name)
  }

  lemma EndOf(fx: Fixture, name: string)
    ensures forall id :: StandsFor(fx, id, name) <==> id == EndId(name, VNetNames(fx.vnets))
  {
  }

  ghost predicate IsPeering(fx: Fixture, l: Line, q: Pair) {
    l.prefix == Peer && ((StandsFor(fx, l.source, q.a) && StandsFor(fx, l.target, q.b))
                         || (StandsFor(fx, l.source, q.b) && StandsFor(fx, l.target, q.a)))
  }

  /** Two different names are joined by a peering line exactly when one of them lists the other, or a peering across
      subscriptions names both; each end is the cell that stands for the name. */
  lemma PeeringsJoin(fx: Fixture, q: Pair)
    requires q.a != "" && q.b != "" && q.a != q.b
    ensures (exists l :: l in PeerLines(Peered(Links(fx)), VNetNames(fx.vnets)) && IsPeering(fx, l, q))
       <==> PeersWith(fx, q.a, q.b) || PeersWith(fx, q.b, q.a)
  {
    var names := VNetNames(fx.vnets);
    var lines := PeerLines(Peered(Links(fx)), names);
    EndOf(fx, q.a);
    EndOf(fx, q.b);
    PeersIffPeering(fx, q);
    PeeringsAreLines(Links(fx), names, q);
    if i :| 0 <= i < |Peered(Links(fx))| && Joins(lines[i], EndId(q.a, names), EndId(q.b, names)) {
      assert lines[i] in lines;
    }
  }

  // ---------------------------------------------------------------- application resources

  /** The subnet key names the VNet: it is the name, or goes on after it with a slash. */
  ghost predicate SitsIn(key: Option<string>, vnet: string) {
    key.Some? && key.value != "" && Free('/', vnet)
    && (key.value == vnet || exists rest :: key.value == vnet + "/" + rest)
  }

  lemma SitsInIff(key: string, vnet: string)
    requires key != ""
    ensures SitsIn(Some(key), vnet) <==> BeforeSlash(key) == vnet
  {
    FirstWithin('/', key);
    FirstSplits('/', key);
    var i := First('/', key);
    if BeforeSlash(key) == vnet && i < |key| {
      assert key == key[..i] + "/" + key[i + 1..];
    }
    if SitsIn(Some(key), vnet) && key != vnet {
      var rest :| key == vnet + "/" + rest;
      FirstAfter('/', vnet, rest);
    }
  }

  lemma VNetPlaced(fx: Fixture, level: Level, overlay: OverlayMap, name: string)
    ensures Node(Vnet, name) in Ids(Placed(fx, level, overlay, StubsOf(fx))) <==> exists v :: v in fx.vnets && v.name == name
  {
    WhatIsPlaced(fx, level, overlay, StubsOf(fx), Node(Vnet, name));
    assert HasVNet(fx, name) <==> exists v :: v in fx.vnets && v.name == name;
  }

  /** What joins an application resource: the internet, if it is an ingress and the internet is drawn, or else
      the VNet that its subnet key names, if the fixture has it. */
  ghost predicate JoinsItem(fx: Fixture, a: AppItem, l: Line) {
    l.prefix == AppEdge
    && if a.isEdge && ((exists n :: n in fx.nics && n.hasPublicIp) || fx.firewall.Some?)
       then l.source == Internet && l.target == Node(a.kind, a.name)
       else l.source == Node(a.kind, a.name) && exists v :: v in fx.vnets && SitsIn(a.subnet, v.name) && l.target == Node(Vnet, v.name)
  }

  lemma ItemLine(fx: Fixture, level: Level, overlay: OverlayMap, a: AppItem, l: Line)
    ensures AppLine(a, DrawsInternet(fx), Ids(Placed(fx, level, overlay, StubsOf(fx)))) == Some(l) <==> JoinsItem(fx, a, l)
  {
    if !(a.isEdge && DrawsInternet(fx)) && Given(a.subnet) {
      var name := BeforeSlash(a.subnet.value);
      VNetPlaced(fx, level, overlay, name);
      forall v | v in fx.vnets ensures SitsIn(a.subnet, v.name) <==> v.name == name {
        SitsInIff(a.subnet.value, v.name);
      }
    }
  }

  /** The lines of application resources are exactly those. */
  lemma AppLinesJoin(fx: Fixture, level: Level, overlay: OverlayMap, l: Line)
    ensures l in AppLinesOf(fx, level, overlay) <==> exists a :: a in AppItems(fx) && JoinsItem(fx, a, l)
  {
    AppLinesEnds(AppItems(fx), DrawsInternet(fx), Ids(Placed(fx, level, overlay, StubsOf(fx))));
    forall a ensures AppLine(a, DrawsInternet(fx), Ids(Placed(fx, level, overlay, StubsOf(fx)))) == Some(l) <==> JoinsItem(fx, a, l) {
      ItemLine(fx, level, overlay, a, l);
    }
  }

  /** The application resources, kind by kind: balancers are an ingress unless internal; API management, front
      doors and the hubs of virtual WANs always are, and have no subnet. */
  ghost predicate IsItem(fx: Fixture, a: AppItem) {
    match a.kind
    case AppGw => Attached(a.name, a.subnet) in fx.appGateways && !a.isEdge
    case Aks => Attached(a.name, a.subnet) in fx.aksClusters && !a.isEdge
    case Pe => Attached(a.name, a.subnet) in fx.privateEndpoints && !a.isEdge
    case Bastion => Attached(a.name, a.subnet) in fx.bastions && !a.isEdge
    case Lb => Balancer(a.name, !a.isEdge) in fx.loadBalancers && a.subnet == None
    case Apim => a.name in fx.apiManagements && a.subnet == None && a.isEdge
    case Fd => a.name in fx.frontDoors && a.subnet == None && a.isEdge
    case Vhub => (exists hubs :: hubs in fx.virtualWans && a.name in hubs) && a.subnet == None && a.isEdge
    case _ => false
  }

  lemma AttachedAre(kind: Kind, xs: seq<Attached>, a: AppItem)
    ensures a in AttachedItems(kind, xs) <==> a.kind == kind && Attached(a.name, a.subnet) in xs && !a.isEdge
  {
    if a.kind == kind && Attached(a.name, a.subnet) in xs && !a.isEdge {
      var i :| 0 <= i < |xs| && xs[i] == Attached(a.name, a.subnet);
      assert AttachedItems(kind, xs)[i] == a;
    }
  }

  lemma BalancersAre(xs: seq<Balancer>, a: AppItem)
    ensures a in BalancerItems(xs) <==> a.kind == Lb && Balancer(a.name, !a.isEdge) in xs && a.subnet == None
  {
    if a.kind == Lb && Balancer(a.name, !a.isEdge) in xs && a.subnet == None {
      var i :| 0 <= i < |xs| && xs[i] == Balancer(a.name, !a.isEdge);
      assert BalancerItems(xs)[i] == a;
    }
  }

  lemma EdgesAre(kind: Kind, names: seq<string>, a: AppItem)
    ensures a in EdgeItems(kind, names) <==> a.kind == kind && a.name in names && a.subnet == None && a.isEdge
  {
    if a.kind == kind && a.name in names && a.subnet == None && a.isEdge {
      var i :| 0 <= i < |names| && names[i] == a.name;
      assert EdgeItems(kind, names)[i] == a;
    }
  }

  lemma {:induction false} HubsAre(wans: seq<seq<string>>, name: string)
    ensures name in Hubs(wans) <==> exists hubs :: hubs in wans && name in hubs
  {
    if |wans| > 0 {
      var init, last := wans[..|wans| - 1], wans[|wans| - 1];
      assert wans == init + [last];
      HubsAre(init, name);
    }
  }

  lemma ItemsAre(fx: Fixture, a: AppItem)
    ensures a in AppItems(fx) <==> IsItem(fx, a)
  {
    AttachedAre(AppGw, fx.appGateways, a);
    AttachedAre(Aks, fx.aksClusters, a);
    AttachedAre(Pe, fx.privateEndpoints, a);
    AttachedAre(Bastion, fx.bastions, a);
    BalancersAre(fx.loadBalancers, a);
    EdgesAre(Apim, fx.apiManagements, a);
    EdgesAre(Fd, fx.frontDoors, a);
    EdgesAre(Vhub, Hubs(fx.virtualWans), a);
    HubsAre(fx.virtualWans, a.name);
  }

  // ---------------------------------------------------------------- exposing findings

  /** It is reachable, and its type says so. */
  ghost predicate SaysExposed(f: Finding) {
    f.reachable && (f.kind in {NsgReachable, LoadBalancerNat} || (f.kind.UnknownKind? && Within("reachable", f.kind.text)))
  }

  /** A cell is exposed exactly when one of its findings is reachable and says so. */
  lemma ExposedIff(overlay: OverlayMap, id: CellId)
    ensures Exposed(overlay, id) <==> id in overlay && exists f :: f in overlay[id].findings && SaysExposed(f)
  {
    forall f ensures Exposing(f) <==> SaysExposed(f) {
      if f.kind.UnknownKind? {
        ContainsIsWithin("reachable", f.kind.text);
      }
    }
  }
}
