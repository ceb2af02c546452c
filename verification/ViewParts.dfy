/** What else each view keeps of the estate, and where the view of a finding is centred. */
module ViewParts {
  import opened Prelude
  import opened Ordering
  import opened CellIds
  import opened Overlay
  import opened Fixtures
  import opened Diagram
  import opened DiagramContents
  import opened DiagramEdges
  import opened Views
  import opened FindingViews

  // ---------------------------------------------------------------- the boundary and the peerings across subscriptions

  ghost predicate KeepsBoundary(view: Fixture, fx: Fixture) {
    && view.gateways == fx.gateways && view.circuits == fx.circuits
    && view.natGateways == fx.natGateways && view.firewall == fx.firewall
  }

  ghost predicate DropsBoundary(view: Fixture) {
    view.gateways == [] && view.circuits == [] && view.natGateways == [] && view.firewall == None
  }

  /** The risk view and the view of a finding keep the boundary and the peerings across subscriptions, the boundary
      view keeps the former alone and the cross-subscription view the latter alone. */
  lemma WhatViewsKeep(fx: Fixture, overlay: OverlayMap, kind: Kind, name: string, k: nat)
    ensures var view := RiskView(fx, overlay); KeepsBoundary(view, fx) && view.crossPeerings == fx.crossPeerings
    ensures var view := FocusView(fx, kind, name, k).fixture; KeepsBoundary(view, fx) && view.crossPeerings == fx.crossPeerings
    ensures var view := Project(fx, BoundaryScope(fx, overlay)); KeepsBoundary(view, fx) && view.crossPeerings == []
    ensures var view := Project(fx, CrossScope(fx)); DropsBoundary(view) && view.crossPeerings == fx.crossPeerings
  {
  }

  lemma ItemsInView(fx: Fixture, scope: Scope, a: AppItem)
    ensures a in AppItems(Project(fx, scope)) <==> a in AppItems(fx) && scope.keepApp(a.kind, a.name)
  {
    ItemsKept(fx, scope);
    FilterMembers(KeepItem(scope), AppItems(fx));
  }

  /** The boundary view keeps every public address and every application resource. */
  lemma BoundaryViewKeepsAll(fx: Fixture, overlay: OverlayMap, p: PipDef, a: AppItem)
    ensures p in Project(fx, BoundaryScope(fx, overlay)).pips <==> p in fx.pips
    ensures a in AppItems(Project(fx, BoundaryScope(fx, overlay))) <==> a in AppItems(fx)
  {
    FilterMembers(BoundaryScope(fx, overlay).keepPip, fx.pips);
    ItemsInView(fx, BoundaryScope(fx, overlay), a);
  }

  /** It keeps exactly the VNets of interfaces with a reachable finding. */
  lemma BoundaryViewVNets(fx: Fixture, overlay: OverlayMap, name: string)
    ensures HasVNet(Project(fx, BoundaryScope(fx, overlay)), name) <==>
            HasVNet(fx, name) && exists n :: n in fx.nics && NicVNet(n) == name && IsReachable(overlay, Node(Nic, NicRid(n)))
  {
    KeptNamesOf(fx, BoundaryScope(fx, overlay), name);
  }

  ghost predicate IsReachable(overlay: OverlayMap, id: CellId) {
    exists f :: id in overlay && f in overlay[id].findings && f.reachable
  }

  lemma KeptNamesOf(fx: Fixture, scope: Scope, name: string)
    ensures HasVNet(Project(fx, scope), name) <==> HasVNet(fx, name) && scope.keepVNet(name)
  {
    var holding := KeptSubnets(Filter(scope.keepNic, fx.nics));
    KeptVNetsMembers(fx.vnets, scope.keepVNet, holding);
    if HasVNet(fx, name) && scope.keepVNet(name) {
      var w :| w in fx.vnets && w.name == name;
      assert Trimmed(w, holding) in Project(fx, scope).vnets;
    }
  }

  /** The cross-subscription view keeps exactly the VNets that such a peering names, and no interface, no public
      address and no application resource. */
  lemma CrossViewShows(fx: Fixture, name: string, n: NicDef, p: PipDef, a: AppItem)
    ensures HasVNet(Project(fx, CrossScope(fx)), name) <==>
            HasVNet(fx, name) && exists l :: l in fx.crossPeerings && (l.local == Some(name) || l.remote == Some(name))
    ensures n !in Project(fx, CrossScope(fx)).nics && p !in Project(fx, CrossScope(fx)).pips
    ensures a !in AppItems(Project(fx, CrossScope(fx)))
  {
    KeptNamesOf(fx, CrossScope(fx), name);
    FilterMembers(CrossScope(fx).keepNic, fx.nics);
    FilterMembers(CrossScope(fx).keepPip, fx.pips);
    ItemsInView(fx, CrossScope(fx), a);
  }

  /** The view of a finding keeps no public address, and of the application resources only the one it is about. */
  lemma FocusViewShows(fx: Fixture, kind: Kind, name: string, k: nat, p: PipDef, a: AppItem)
    ensures p !in FocusView(fx, kind, name, k).fixture.pips
    ensures a in AppItems(FocusView(fx, kind, name, k).fixture) <==>
            a in AppItems(fx) && a.kind == kind && a.name == name && kind != Nic
  {
    var scope := FocusScope(kind, name, Around(fx, Center(fx, kind, name), k));
    FilterMembers(scope.keepPip, fx.pips);
    ItemsInView(fx, scope, a);
  }

  // ---------------------------------------------------------------- the centre of a view

  ghost function Named(x: Attached): string {
    x.name
  }

  /** A resource of that kind and name is the only one, and says it sits under that subnet key. */
  ghost predicate SitsUnder(fx: Fixture, kind: Kind, name: string, key: string) {
    match kind
    case Nic => KeysDistinct(NicRid, fx.nics) && exists n :: n in fx.nics && NicRid(n) == name && n.subnet == key
    case AppGw => KeysDistinct(Named, fx.appGateways) && Attached(name, Some(key)) in fx.appGateways
    case Aks => KeysDistinct(Named, fx.aksClusters) && Attached(name, Some(key)) in fx.aksClusters
    case Pe => KeysDistinct(Named, fx.privateEndpoints) && Attached(name, Some(key)) in fx.privateEndpoints
    case _ => false
  }

  lemma {:induction false} LastSubnetIsIts(xs: seq<Attached>, name: string, key: string)
    requires KeysDistinct(Named, xs) && Attached(name, Some(key)) in xs
    ensures LastSubnet(xs, name) == key
  {
    var init, last := xs[..|xs| - 1], xs[|xs| - 1];
    assert xs == init + [last];
    if last != Attached(name, Some(key)) {
      var i :| 0 <= i < |init| && init[i] == Attached(name, Some(key));
      assert Named(xs[i]) != Named(xs[|xs| - 1]);
      LastSubnetIsIts(init, name, key);
    }
  }

  lemma CenterIsPart(fx: Fixture, kind: Kind, name: string, key: string)
    requires SitsUnder(fx, kind, name, key)
    ensures Center(fx, kind, name) == VNetPart(key)
  {
    match kind
    case Nic =>
      var n :| n in fx.nics && NicRid(n) == name && n.subnet == key;
      LastNicIsTheNic(fx.nics, n);
    case AppGw => LastSubnetIsIts(fx.appGateways, name, key);
    case Aks => LastSubnetIsIts(fx.aksClusters, name, key);
    case Pe => LastSubnetIsIts(fx.privateEndpoints, name, key);
  }

  /** A view is centred on the VNet before the first slash of the resource's subnet key; without a slash it has
      no centre. */
  lemma CenterIsItsVNet(fx: Fixture, kind: Kind, name: string, vnet: string, subnet: string)
    requires Free('/', vnet)
    ensures SitsUnder(fx, kind, name, vnet + "/" + subnet) ==> Center(fx, kind, name) == vnet
    ensures SitsUnder(fx, kind, name, vnet) ==> Center(fx, kind, name) == ""
    ensures kind !in {Nic, AppGw, Aks, Pe} ==> Center(fx, kind, name) == ""
  {
    FirstAfter('/', vnet, subnet);
    FirstWithin('/', vnet);
    if SitsUnder(fx, kind, name, vnet + "/" + subnet) {
      CenterIsPart(fx, kind, name, vnet + "/" + subnet);
    }
    if SitsUnder(fx, kind, name, vnet) {
      CenterIsPart(fx, kind, name, vnet);
    }
  }

  // ---------------------------------------------------------------- the whole set

  /** First the whole estate without and with detail, then the risk and the boundary view in detail, then the
      cross-subscription view if such a peering names anything, then one view for each resource with a finding that
      qualifies. */
  lemma ViewsInOrder(fx: Fixture, overlay: OverlayMap, order: seq<CellId>, k: nat)
    requires forall id :: id in order ==> id in overlay
    ensures var views := AllViews(fx, overlay, order, k);
            && |views| >= 4 && views[0] == View(fx, Hld) && views[1] == View(fx, Mld)
            && views[2] == View(RiskView(fx, overlay), Mld) && views[3] == View(Project(fx, BoundaryScope(fx, overlay)), Mld)
            && ((exists l :: l in fx.crossPeerings && (l.local.Some? || l.remote.Some?)) ==>
                  |views| >= 5 && views[4] == View(Project(fx, CrossScope(fx)), Hld))
  {
    SortedInOverlay(overlay, order);
    CrossViewIsMade(fx);
    Places(View(fx, Hld), View(fx, Mld), View(RiskView(fx, overlay), Mld), View(Project(fx, BoundaryScope(fx, overlay)), Mld),
           CrossViews(fx), FocusViews(fx, Chosen(Items(overlay, SortedIds(order))), k));
  }

  lemma CrossViewIsMade(fx: Fixture)
    ensures (exists l :: l in fx.crossPeerings && (l.local.Some? || l.remote.Some?)) ==>
              CrossViews(fx) == [View(Project(fx, CrossScope(fx)), Hld)]
  {
    if l :| l in fx.crossPeerings && (l.local.Some? || l.remote.Some?) {
      assert (if l.local.Some? then l.local.value else l.remote.value) in CrossNames(fx.crossPeerings);
    }
  }

  lemma Places<T>(a: T, b: T, c: T, d: T, e: seq<T>, rest: seq<T>)
    ensures var s := [a, b] + [c] + [d] + e + rest;
            && |s| >= 4 + |e| && s[0] == a && s[1] == b && s[2] == c && s[3] == d && (|e| > 0 ==> s[4] == e[0])
  {
  }
}
