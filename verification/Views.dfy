/** Views: projections of one estate, all painted from the same whole-estate overlay. */
module Views {
  import opened Prelude
  import opened Ordering
  import opened CellIds
  import opened Overlay
  import opened Fixtures
  import opened Diagram
  import opened DiagramContents
  import opened DiagramEdges

  /** What a view keeps. */
  datatype Scope = Scope(
    keepVNet: string -> bool, keepNic: NicDef -> bool, keepPip: PipDef -> bool, keepApp: (Kind, string) -> bool,
    boundary: bool, crossPeerings: bool)

  function KeptSubnets(nics: seq<NicDef>): set<string> {
    set n | n in nics :: n.subnet
  }

  /** A kept VNet keeps the subnets that hold a kept network interface. */
  function Trimmed(v: VNet, holding: set<string>): VNet {
    v.(subnets := Filter(s => SubnetKey(v.name, s) in holding, v.subnets))
  }

  function KeptVNets(vnets: seq<VNet>, keep: string -> bool, holding: set<string>): seq<VNet> {
    if |vnets| == 0 then []
    else
      var before, v := KeptVNets(vnets[..|vnets| - 1], keep, holding), vnets[|vnets| - 1];
      if keep(v.name) then before + [Trimmed(v, holding)] else before
  }

  function KeptAttached(kind: Kind, xs: seq<Attached>, keep: (Kind, string) -> bool): seq<Attached> {
    Filter((x: Attached) => keep(kind, x.name), xs)
  }

  function KeptNames(kind: Kind, xs: seq<string>, keep: (Kind, string) -> bool): seq<string> {
    Filter(x => keep(kind, x), xs)
  }

  /** A wide-area network keeps its kept hubs, and goes when none is left. */
  function KeptWans(wans: seq<seq<string>>, keep: (Kind, string) -> bool): seq<seq<string>> {
    if |wans| == 0 then []
    else
      var before, hubs := KeptWans(wans[..|wans| - 1], keep), KeptNames(Vhub, wans[|wans| - 1], keep);
      if |hubs| > 0 then before + [hubs] else before
  }

  function Project(fx: Fixture, scope: Scope): Fixture {
    var nics := Filter(scope.keepNic, fx.nics);
    Fixture(
      KeptVNets(fx.vnets, scope.keepVNet, KeptSubnets(nics)), nics, Filter(scope.keepPip, fx.pips),
      if scope.boundary then fx.gateways else [], if scope.boundary then fx.circuits else [],
      if scope.boundary then fx.natGateways else [], if scope.boundary then fx.firewall else None,
      if scope.crossPeerings then fx.crossPeerings else [],
      KeptAttached(AppGw, fx.appGateways, scope.keepApp), KeptAttached(Aks, fx.aksClusters, scope.keepApp),
      KeptAttached(Pe, fx.privateEndpoints, scope.keepApp), KeptAttached(Bastion, fx.bastions, scope.keepApp),
      Filter((b: Balancer) => scope.keepApp(Lb, b.name), fx.loadBalancers),
      KeptNames(Apim, fx.apiManagements, scope.keepApp), KeptNames(Fd, fx.frontDoors, scope.keepApp),
      KeptWans(fx.virtualWans, scope.keepApp))
  }

  // ---------------------------------------------------------------- filters

  lemma KeptWasThere<T>(keep: T -> bool, s: seq<T>, x: T)
    requires x in Filter(keep, s)
    ensures x in s && keep(x)
  {
    FilterMembers(keep, s);
  }

  lemma {:induction false} FilterKeysDistinct<T, K>(keep: T -> bool, key: T -> K, s: seq<T>)
    requires KeysDistinct(key, s)
    ensures KeysDistinct(key, Filter(keep, s))
  {
    if |s| > 0 {
      var init, last := s[..|s| - 1], s[|s| - 1];
      FilterKeysDistinct(keep, key, init);
      var before := Filter(keep, init);
      forall i | 0 <= i < |before| ensures key(before[i]) != key(last) {
        var x := before[i];
        assert x in before;
        KeptWasThere(keep, init, x);
        var j :| 0 <= j < |init| && init[j] == x;
        assert key(s[j]) != key(s[|s| - 1]);
      }
    }
  }

  lemma FilterDistinct<T>(keep: T -> bool, s: seq<T>)
    requires Distinct(s)
    ensures Distinct(Filter(keep, s))
  {
    FilterKeysDistinct(keep, (x: T) => x, s);
    var r := Filter(keep, s);
    forall i, j | 0 <= i < j < |r| ensures r[i] != r[j] {
      assert ((x: T) => x)(r[i]) != ((x: T) => x)(r[j]);
    }
  }

  lemma {:induction false} KeptVNetsMembers(vnets: seq<VNet>, keep: string -> bool, holding: set<string>)
    ensures forall w :: w in KeptVNets(vnets, keep, holding)
                   <==> exists v :: v in vnets && keep(v.name) && w == Trimmed(v, holding)
  {
    if |vnets| > 0 {
      var init, last := vnets[..|vnets| - 1], vnets[|vnets| - 1];
      assert vnets == init + [last];
      KeptVNetsMembers(init, keep, holding);
      forall w ensures w in KeptVNets(vnets, keep, holding)
                  <==> exists v :: v in vnets && keep(v.name) && w == Trimmed(v, holding)
      {
        if w in KeptVNets(init, keep, holding) {
          var v :| v in init && keep(v.name) && w == Trimmed(v, holding);
          assert v in vnets;
        } else if w in KeptVNets(vnets, keep, holding) {
          assert last in vnets && w == Trimmed(last, holding);
        }
      }
    }
  }

  lemma {:induction false} KeptVNetsDistinct(vnets: seq<VNet>, keep: string -> bool, holding: set<string>)
    requires KeysDistinct(VNetName, vnets)
    ensures KeysDistinct(VNetName, KeptVNets(vnets, keep, holding))
  {
    if |vnets| > 0 {
      var init, last := vnets[..|vnets| - 1], vnets[|vnets| - 1];
      KeptVNetsDistinct(init, keep, holding);
      KeptVNetsMembers(init, keep, holding);
      var before := KeptVNets(init, keep, holding);
      forall i | 0 <= i < |before| ensures VNetName(before[i]) != VNetName(last) {
        assert before[i] in before;
        var v :| v in init && keep(v.name) && before[i] == Trimmed(v, holding);
        var j :| 0 <= j < |init| && init[j] == v;
        assert VNetName(vnets[j]) != VNetName(vnets[|vnets| - 1]);
      }
    }
  }

  // ---------------------------------------------------------------- application items

  function KeepItem(scope: Scope): AppItem -> bool {
    (a: AppItem) => scope.keepApp(a.kind, a.name)
  }

  lemma {:induction false} AttachedKept(kind: Kind, xs: seq<Attached>, scope: Scope)
    ensures AttachedItems(kind, KeptAttached(kind, xs, scope.keepApp)) == Filter(KeepItem(scope), AttachedItems(kind, xs))
  {
    if |xs| > 0 {
      AttachedKept(kind, xs[..|xs| - 1], scope);
      assert AttachedItems(kind, xs)[..|xs| - 1] == AttachedItems(kind, xs[..|xs| - 1]);
    }
  }

  lemma {:induction false} BalancersKept(xs: seq<Balancer>, scope: Scope)
    ensures BalancerItems(Filter((b: Balancer) => scope.keepApp(Lb, b.name), xs)) == Filter(KeepItem(scope), BalancerItems(xs))
  {
    if |xs| > 0 {
      BalancersKept(xs[..|xs| - 1], scope);
      assert BalancerItems(xs)[..|xs| - 1] == BalancerItems(xs[..|xs| - 1]);
    }
  }

  lemma {:induction false} EdgesKept(kind: Kind, xs: seq<string>, scope: Scope)
    ensures EdgeItems(kind, KeptNames(kind, xs, scope.keepApp)) == Filter(KeepItem(scope), EdgeItems(kind, xs))
  {
    if |xs| > 0 {
      EdgesKept(kind, xs[..|xs| - 1], scope);
      assert EdgeItems(kind, xs)[..|xs| - 1] == EdgeItems(kind, xs[..|xs| - 1]);
    }
  }

  lemma {:induction false} HubsKept(wans: seq<seq<string>>, keep: (Kind, string) -> bool)
    ensures Hubs(KeptWans(wans, keep)) == KeptNames(Vhub, Hubs(wans), keep)
  {
    if |wans| > 0 {
      var init, last := wans[..|wans| - 1], wans[|wans| - 1];
      HubsKept(init, keep);
      FilterJoin(x => keep(Vhub, x), Hubs(init), last);
      var before, hubs := KeptWans(init, keep), KeptNames(Vhub, last, keep);
      if |hubs| > 0 {
        assert (before + [hubs])[..|before|] == before;
      }
    }
  }

  /** The application band of a view is the whole band with the unwanted items left out. */
  lemma ItemsKept(fx: Fixture, scope: Scope)
    ensures AppItems(Project(fx, scope)) == Filter(KeepItem(scope), AppItems(fx))
  {
    var keep := KeepItem(scope);
    AttachedKept(AppGw, fx.appGateways, scope);
    AttachedKept(Aks, fx.aksClusters, scope);
    AttachedKept(Pe, fx.privateEndpoints, scope);
    AttachedKept(Bastion, fx.bastions, scope);
    BalancersKept(fx.loadBalancers, scope);
    EdgesKept(Apim, fx.apiManagements, scope);
    EdgesKept(Fd, fx.frontDoors, scope);
    HubsKept(fx.virtualWans, scope.keepApp);
    EdgesKept(Vhub, Hubs(fx.virtualWans), scope);
    FilterAllJoin(keep, AttachedItems(AppGw, fx.appGateways), AttachedItems(Aks, fx.aksClusters),
                  AttachedItems(Pe, fx.privateEndpoints), AttachedItems(Bastion, fx.bastions),
                  BalancerItems(fx.loadBalancers), EdgeItems(Apim, fx.apiManagements),
                  EdgeItems(Fd, fx.frontDoors), EdgeItems(Vhub, Hubs(fx.virtualWans)));
  }

  lemma FilterAllJoin<T>(keep: T -> bool, a: seq<T>, b: seq<T>, c: seq<T>, d: seq<T>, e: seq<T>, f: seq<T>, g: seq<T>, h: seq<T>)
    ensures Filter(keep, a + b + c + d + e + f + g + h)
         == Filter(keep, a) + Filter(keep, b) + Filter(keep, c) + Filter(keep, d)
            + Filter(keep, e) + Filter(keep, f) + Filter(keep, g) + Filter(keep, h)
  {
    FilterJoin(keep, a, b);
    FilterJoin(keep, a + b, c);
    FilterJoin(keep, a + b + c, d);
    FilterJoin(keep, a + b + c + d, e);
    FilterJoin(keep, a + b + c + d + e, f);
    FilterJoin(keep, a + b + c + d + e + f, g);
    FilterJoin(keep, a + b + c + d + e + f + g, h);
  }

  // ---------------------------------------------------------------- every view can be drawn

  lemma TrimmedSubnets(fx: Fixture, scope: Scope)
    ensures forall w :: w in Project(fx, scope).vnets ==>
              exists v :: v in fx.vnets && v.name == w.name && scope.keepVNet(v.name) && forall s :: s in w.subnets ==> s in v.subnets
  {
    var holding := KeptSubnets(Filter(scope.keepNic, fx.nics));
    KeptVNetsMembers(fx.vnets, scope.keepVNet, holding);
    forall w | w in Project(fx, scope).vnets
      ensures exists v :: v in fx.vnets && v.name == w.name && scope.keepVNet(v.name) && forall s :: s in w.subnets ==> s in v.subnets
    {
      var v :| v in fx.vnets && scope.keepVNet(v.name) && w == Trimmed(v, holding);
      FilterMembers(s => SubnetKey(v.name, s) in holding, v.subnets);
    }
  }

  lemma SubnetsStayApart(fx: Fixture, scope: Scope)
    requires SubnetKeysApart(fx.vnets)
    ensures SubnetKeysApart(Project(fx, scope).vnets)
  {
    TrimmedSubnets(fx, scope);
  }

  lemma SubnetsStayDistinct(fx: Fixture, scope: Scope)
    requires forall v :: v in fx.vnets ==> Distinct(v.subnets)
    ensures forall w :: w in Project(fx, scope).vnets ==> Distinct(w.subnets)
  {
    var holding := KeptSubnets(Filter(scope.keepNic, fx.nics));
    KeptVNetsMembers(fx.vnets, scope.keepVNet, holding);
    forall w | w in Project(fx, scope).vnets ensures Distinct(w.subnets) {
      var v :| v in fx.vnets && scope.keepVNet(v.name) && w == Trimmed(v, holding);
      FilterDistinct(s => SubnetKey(v.name, s) in holding, v.subnets);
    }
  }

  /** Whatever a view keeps, what can be drawn whole can be drawn in the view. */
  lemma EveryViewIsDrawable(fx: Fixture, scope: Scope, level: Level)
    requires Drawable(fx, Mld)
    ensures Drawable(Project(fx, scope), level)
  {
    KeptVNetsDistinct(fx.vnets, scope.keepVNet, KeptSubnets(Filter(scope.keepNic, fx.nics)));
    SubnetsStayDistinct(fx, scope);
    SubnetsStayApart(fx, scope);
    FilterKeysDistinct(scope.keepNic, NicRid, fx.nics);
    FilterKeysDistinct(scope.keepPip, PipRid, fx.pips);
    ItemsKept(fx, scope);
    FilterKeysDistinct(KeepItem(scope), AppId, AppItems(fx));
  }

  // ---------------------------------------------------------------- a view invents nothing

  lemma ViewSubnet(fx: Fixture, scope: Scope, key: string)
    requires HasSubnet(Project(fx, scope), key)
    ensures HasSubnet(fx, key)
  {
    TrimmedSubnets(fx, scope);
    var w, s :| w in Project(fx, scope).vnets && s in w.subnets && key == SubnetKey(w.name, s);
    var v :| v in fx.vnets && v.name == w.name && scope.keepVNet(v.name) && forall s :: s in w.subnets ==> s in v.subnets;
    assert s in v.subnets;
  }

  lemma ViewNic(fx: Fixture, scope: Scope, name: string)
    requires HasNic(Project(fx, scope), name)
    ensures exists n :: n in fx.nics && scope.keepNic(n) && NicRid(n) == name && HasSubnet(fx, n.subnet)
  {
    FilterMembers(scope.keepNic, fx.nics);
    var n :| n in Project(fx, scope).nics && NicRid(n) == name && HasSubnet(Project(fx, scope), n.subnet);
    ViewSubnet(fx, scope, n.subnet);
  }

  lemma ViewPip(fx: Fixture, scope: Scope, name: string)
    requires IsOrphan(Project(fx, scope).pips, name)
    ensures exists p :: p in fx.pips && scope.keepPip(p) && !p.attached && PipRid(p) == name
  {
    FilterMembers(scope.keepPip, fx.pips);
  }

  /** Apart from stubs for VNets it leaves out, a view shows only what the full detail diagram shows. */
  lemma ViewInventsNothing(fx: Fixture, scope: Scope, level: Level, stubs: seq<string>, stubs': seq<string>, id: CellId)
    requires Belongs(Project(fx, scope), level, stubs', id) && !(id.Node? && id.kind.Ext?)
    ensures Belongs(fx, Mld, stubs, id)
  {
    ItemsKept(fx, scope);
    FilterMembers(KeepItem(scope), AppItems(fx));
    FilterMembers(scope.keepNic, fx.nics);
    TrimmedSubnets(fx, scope);
    if id.Node? {
      if id.kind.Nic? {
        ViewNic(fx, scope, id.name);
      } else if id.kind.Subnet? {
        ViewSubnet(fx, scope, id.name);
      } else if id.kind.Pip? {
        ViewPip(fx, scope, id.name);
      }
    }
  }

  lemma KeyNamesVNet(n: NicDef, v: string, sn: string)
    requires n.subnet == SubnetKey(v, sn) && Free('/', v)
    ensures NicVNet(n) == v
  {
    FirstAfter('/', v, sn);
  }

  /** The key of a subnet of one of the VNets in `names`. */
  ghost predicate SubnetAmong(fx: Fixture, names: set<string>, key: string) {
    exists v, sn :: v in fx.vnets && v.name in names && sn in v.subnets && key == SubnetKey(v.name, sn)
  }

  ghost predicate KeepsVNets(fx: Fixture, scope: Scope, names: set<string>) {
    forall v :: v in fx.vnets ==> (scope.keepVNet(v.name) <==> v.name in names)
  }

  lemma ViewSubnetIff(fx: Fixture, scope: Scope, names: set<string>, key: string)
    requires KeepsVNets(fx, scope, names) && key in KeptSubnets(Filter(scope.keepNic, fx.nics))
    ensures HasSubnet(Project(fx, scope), key) <==> SubnetAmong(fx, names, key)
  {
    var holding := KeptSubnets(Filter(scope.keepNic, fx.nics));
    KeptVNetsMembers(fx.vnets, scope.keepVNet, holding);
    if HasSubnet(Project(fx, scope), key) {
      TrimmedSubnets(fx, scope);
      var w, s :| w in Project(fx, scope).vnets && s in w.subnets && key == SubnetKey(w.name, s);
      var v :| v in fx.vnets && v.name == w.name && scope.keepVNet(v.name) && forall s :: s in w.subnets ==> s in v.subnets;
      assert s in v.subnets;
    }
    if SubnetAmong(fx, names, key) {
      var v, sn :| v in fx.vnets && v.name in names && sn in v.subnets && key == SubnetKey(v.name, sn);
      FilterMembers(s => SubnetKey(v.name, s) in holding, v.subnets);
      var w := Trimmed(v, holding);
      assert w in Project(fx, scope).vnets && sn in w.subnets;
    }
  }

  /** A view shows a network interface exactly when it keeps one of that id in a subnet of a kept VNet. */
  lemma ViewNicIff(fx: Fixture, scope: Scope, names: set<string>, name: string)
    requires KeepsVNets(fx, scope, names)
    ensures HasNic(Project(fx, scope), name) <==>
            exists n :: n in fx.nics && scope.keepNic(n) && NicRid(n) == name && SubnetAmong(fx, names, n.subnet)
  {
    FilterMembers(scope.keepNic, fx.nics);
    forall n | n in fx.nics && scope.keepNic(n)
      ensures HasSubnet(Project(fx, scope), n.subnet) <==> SubnetAmong(fx, names, n.subnet)
    {
      assert n in Filter(scope.keepNic, fx.nics);
      ViewSubnetIff(fx, scope, names, n.subnet);
    }
  }

  /** Without slashes in VNet names, a subnet key leads back to its VNet. */
  lemma SubnetOfItsVNet(fx: Fixture, names: set<string>, n: NicDef)
    requires NoSlashes(fx.vnets) && HasSubnet(fx, n.subnet) && NicVNet(n) in names
    ensures SubnetAmong(fx, names, n.subnet)
  {
    var v, sn :| v in fx.vnets && sn in v.subnets && n.subnet == SubnetKey(v.name, sn);
    KeyNamesVNet(n, v.name, sn);
  }

  // ---------------------------------------------------------------- a view changes no verdict

  predicate IsLeaf(id: CellId) {
    id.Node? && id.kind in {Nic, Pip, AppGw, Aks, Pe, Apim, Fd, Vhub}
  }

  lemma ColourAt(fx: Fixture, level: Level, overlay: OverlayMap, stubs: seq<string>, c: Cell)
    requires c in Cells(fx, level, overlay, stubs)
    ensures c.paint == ColourOf(fx, overlay, c.id)
  {
    EveryCellIsColoured(fx, level, overlay, stubs);
  }

  lemma VNetColour(fx: Fixture, level: Level, overlay: OverlayMap, stubs: seq<string>, c: Cell)
    requires c in Cells(fx, level, overlay, stubs) && c.id.Node? && c.id.kind.Vnet?
    ensures c.paint == Painted(Rollup(fx.nics, c.id.name, overlay))
  {
    ColourAt(fx, level, overlay, stubs, c);
  }

  lemma LeafColour(fx: Fixture, overlay: OverlayMap, id: CellId)
    requires IsLeaf(id)
    ensures ColourOf(fx, overlay, id) == Painted(SeverityOf(overlay, id))
  {
  }

  /** In whatever diagram it is drawn, a leaf shows the worst of the estate's findings about it. */
  lemma LeafShowsItsWorstFinding(fx: Fixture, level: Level, overlay: OverlayMap, stubs: seq<string>, findings: seq<Finding>, c: Cell)
    requires Computed(overlay, findings)
    requires c in Cells(fx, level, overlay, stubs) && IsLeaf(c.id)
    ensures c.paint == Painted(Worst(Painting(findings, c.id)))
  {
    ColourAt(fx, level, overlay, stubs, c);
    LeafColour(fx, overlay, c.id);
    assert OverlayAt(overlay, c.id, Painting(findings, c.id));
  }

  /** So a leaf has the same colour in every view as in the whole diagram. */
  lemma ViewKeepsLeafColours(fx: Fixture, scope: Scope, level: Level, level': Level, overlay: OverlayMap,
                             stubs: seq<string>, stubs': seq<string>, c: Cell, c': Cell)
    requires c in Cells(fx, level, overlay, stubs) && c' in Cells(Project(fx, scope), level', overlay, stubs')
    requires c.id == c'.id && IsLeaf(c.id)
    ensures c.paint == c'.paint
  {
    ColourAt(fx, level, overlay, stubs, c);
    ColourAt(Project(fx, scope), level', overlay, stubs', c');
    LeafColour(fx, overlay, c.id);
    LeafColour(Project(fx, scope), overlay, c.id);
  }

  /** Leaving network interfaces out can only lower a rollup. */
  lemma {:induction false} RollupNeverRises(nics: seq<NicDef>, keep: NicDef -> bool, v: string, overlay: OverlayMap)
    ensures Rank(Rollup(Filter(keep, nics), v, overlay)) <= Rank(Rollup(nics, v, overlay))
  {
    if |nics| > 0 {
      var init, last := nics[..|nics| - 1], nics[|nics| - 1];
      RollupNeverRises(init, keep, v, overlay);
      var before := Filter(keep, init);
      assert (before + [last])[..|before|] == before;
    }
  }

  /** Leaving out only clean ones leaves it as it was. */
  lemma {:induction false} RollupKept(nics: seq<NicDef>, keep: NicDef -> bool, v: string, overlay: OverlayMap)
    requires forall n :: n in nics && !keep(n) ==> SeverityOf(overlay, Node(Nic, NicRid(n))) == Clean
    ensures Rollup(Filter(keep, nics), v, overlay) == Rollup(nics, v, overlay)
  {
    if |nics| > 0 {
      var init, last := nics[..|nics| - 1], nics[|nics| - 1];
      assert nics == init + [last];
      RollupKept(init, keep, v, overlay);
      var before := Filter(keep, init);
      assert (before + [last])[..|before|] == before;
    }
  }

  /** A VNet in a view never shows a worse severity than in the whole diagram. */
  lemma ViewNeverRaisesVNets(fx: Fixture, scope: Scope, level: Level, level': Level, overlay: OverlayMap,
                             stubs: seq<string>, stubs': seq<string>, c: Cell, c': Cell)
    requires c in Cells(fx, level, overlay, stubs) && c' in Cells(Project(fx, scope), level', overlay, stubs')
    requires c.id == c'.id && c.id.Node? && c.id.kind.Vnet?
    ensures c.paint.Painted? && c'.paint.Painted? && Rank(c'.paint.severity) <= Rank(c.paint.severity)
  {
    VNetColour(fx, level, overlay, stubs, c);
    VNetColour(Project(fx, scope), level', overlay, stubs', c');
    RollupNeverRises(fx.nics, scope.keepNic, c.id.name, overlay);
  }

  // ---------------------------------------------------------------- the risk view

  function RiskyVNets(fx: Fixture, overlay: OverlayMap): set<string> {
    (set n | n in fx.nics && Node(Nic, NicRid(n)) in overlay :: NicVNet(n))
    + (set id | id in overlay && id.Node? && id.kind.Vnet? :: id.name)
  }

  function RiskScope(fx: Fixture, overlay: OverlayMap): Scope {
    var vnets := RiskyVNets(fx, overlay);
    Scope(v => v in vnets, n => Node(Nic, NicRid(n)) in overlay, p => Node(Pip, PipRid(p)) in overlay,
          (kind, name) => Node(kind, name) in overlay, true, true)
  }

  function RiskView(fx: Fixture, overlay: OverlayMap): Fixture {
    Project(fx, RiskScope(fx, overlay))
  }

  /** The risk view shows exactly the flagged network interfaces in a subnet of a risky VNet. */
  lemma RiskViewNics(fx: Fixture, overlay: OverlayMap, name: string)
    ensures HasNic(RiskView(fx, overlay), name) <==>
            Node(Nic, name) in overlay
            && exists n :: n in fx.nics && NicRid(n) == name && SubnetAmong(fx, RiskyVNets(fx, overlay), n.subnet)
  {
    ViewNicIff(fx, RiskScope(fx, overlay), RiskyVNets(fx, overlay), name);
  }

  /** Without slashes in VNet names these are exactly the flagged ones of the whole diagram. */
  lemma RiskViewMissesNoNic(fx: Fixture, overlay: OverlayMap, name: string)
    requires NoSlashes(fx.vnets)
    ensures HasNic(RiskView(fx, overlay), name) <==> HasNic(fx, name) && Node(Nic, name) in overlay
  {
    RiskViewNics(fx, overlay, name);
    if HasNic(RiskView(fx, overlay), name) {
      ViewNic(fx, RiskScope(fx, overlay), name);
    }
    if HasNic(fx, name) && Node(Nic, name) in overlay {
      var n :| n in fx.nics && NicRid(n) == name && HasSubnet(fx, n.subnet);
      assert NicVNet(n) in RiskyVNets(fx, overlay);
      SubnetOfItsVNet(fx, RiskyVNets(fx, overlay), n);
    }
  }

  /** With a slash a flagged network interface of the whole diagram can be missing. */
  lemma SlashHidesRisk(fx: Fixture, e: Entry)
    requires fx.vnets == [VNet("a/b", [], ["c"])] && fx.nics == [NicDef(None, "web", "a/b/c", true)]
    ensures HasNic(fx, "web") && !HasNic(RiskView(fx, map[Node(Nic, "web") := e]), "web")
  {
    var overlay := map[Node(Nic, "web") := e];
    var n, v := fx.nics[0], fx.vnets[0];
    assert n in fx.nics && v in fx.vnets && v.subnets[0] in v.subnets;
    assert "a/b/c" == SubnetKey("a/b", "c");
    FirstAfter('/', "a", "b/c");
    assert "a" + ['/'] + "b/c" == "a/b/c";
    assert NicVNet(n) == "a";
    assert |"a/b"| == 3 && |"a"| == 1;
    assert RiskyVNets(fx, overlay) == {"a"};
    RiskViewNics(fx, overlay, "web");
  }

  /** The same for unattached public addresses and for application resources. */
  lemma RiskViewPips(fx: Fixture, overlay: OverlayMap, name: string)
    ensures IsOrphan(RiskView(fx, overlay).pips, name) <==> IsOrphan(fx.pips, name) && Node(Pip, name) in overlay
  {
    FilterMembers(RiskScope(fx, overlay).keepPip, fx.pips);
    if IsOrphan(fx.pips, name) && Node(Pip, name) in overlay {
      var p :| p in fx.pips && !p.attached && PipRid(p) == name;
      assert p in RiskView(fx, overlay).pips;
    }
  }

  lemma RiskViewApps(fx: Fixture, overlay: OverlayMap, a: AppItem)
    ensures a in AppItems(RiskView(fx, overlay)) <==> a in AppItems(fx) && AppId(a) in overlay
  {
    ItemsKept(fx, RiskScope(fx, overlay));
    FilterMembers(KeepItem(RiskScope(fx, overlay)), AppItems(fx));
  }

  /** It shows exactly the VNets with a finding of their own or on one of their network interfaces... */
  lemma RiskViewVNets(fx: Fixture, overlay: OverlayMap, name: string)
    ensures HasVNet(RiskView(fx, overlay), name) <==>
            HasVNet(fx, name) && (Node(Vnet, name) in overlay
                                  || exists n :: n in fx.nics && NicVNet(n) == name && Node(Nic, NicRid(n)) in overlay)
  {
    var scope := RiskScope(fx, overlay);
    var holding := KeptSubnets(Filter(scope.keepNic, fx.nics));
    KeptVNetsMembers(fx.vnets, scope.keepVNet, holding);
    if HasVNet(fx, name) && scope.keepVNet(name) {
      var v :| v in fx.vnets && v.name == name;
      assert Trimmed(v, holding) in RiskView(fx, overlay).vnets;
    }
    assert scope.keepVNet(name) <==> name in RiskyVNets(fx, overlay);
  }

  /** ...in the colour they have in the whole diagram... */
  lemma RiskViewKeepsVNetColours(fx: Fixture, overlay: OverlayMap, level: Level, stubs: seq<string>, stubs': seq<string>, c: Cell, c': Cell)
    requires c in Cells(fx, level, overlay, stubs) && c' in Cells(RiskView(fx, overlay), Mld, overlay, stubs')
    requires c.id == c'.id && c.id.Node? && c.id.kind.Vnet?
    ensures c.paint == c'.paint
  {
    ColourAt(fx, level, overlay, stubs, c);
    ColourAt(RiskView(fx, overlay), Mld, overlay, stubs', c');
    RollupKept(fx.nics, RiskScope(fx, overlay).keepNic, c.id.name, overlay);
  }

  lemma {:induction false} RollupHasCause(nics: seq<NicDef>, v: string, overlay: OverlayMap)
    requires Rank(Rollup(nics, v, overlay)) > 0
    ensures Node(Vnet, v) in overlay || exists n :: n in nics && NicVNet(n) == v && Node(Nic, NicRid(n)) in overlay
  {
    if |nics| > 0 {
      var init, last := nics[..|nics| - 1], nics[|nics| - 1];
      assert nics == init + [last];
      if Rank(Rollup(init, v, overlay)) > 0 {
        RollupHasCause(init, v, overlay);
        if Node(Vnet, v) !in overlay {
          var n :| n in init && NicVNet(n) == v && Node(Nic, NicRid(n)) in overlay;
          assert n in nics;
        }
      } else {
        assert last in nics && NicVNet(last) == v && Node(Nic, NicRid(last)) in overlay;
      }
    }
  }

  /** ...and leaves out no VNet whose colour is a warning. */
  lemma RiskViewMissesNoVNet(fx: Fixture, overlay: OverlayMap, name: string)
    requires HasVNet(fx, name) && Rank(Rollup(fx.nics, name, overlay)) > 0
    ensures HasVNet(RiskView(fx, overlay), name)
  {
    RollupHasCause(fx.nics, name, overlay);
    RiskViewVNets(fx, overlay, name);
  }

  // ---------------------------------------------------------------- the boundary and cross-subscription views

  predicate HasReachable(overlay: OverlayMap, id: CellId) {
    id in overlay && exists f :: f in overlay[id].findings && f.reachable
  }

  function ReachableVNets(fx: Fixture, overlay: OverlayMap): set<string> {
    set n | n in fx.nics && HasReachable(overlay, Node(Nic, NicRid(n))) :: NicVNet(n)
  }

  function BoundaryScope(fx: Fixture, overlay: OverlayMap): Scope {
    var vnets := ReachableVNets(fx, overlay);
    Scope(v => v in vnets, n => HasReachable(overlay, Node(Nic, NicRid(n))), p => true, (kind, name) => true, true, false)
  }

  /** The boundary view shows exactly the reachable network interfaces in a subnet of such a one's VNet. */
  lemma BoundaryViewNics(fx: Fixture, overlay: OverlayMap, name: string)
    ensures HasNic(Project(fx, BoundaryScope(fx, overlay)), name) <==>
            HasReachable(overlay, Node(Nic, name))
            && exists n :: n in fx.nics && NicRid(n) == name && SubnetAmong(fx, ReachableVNets(fx, overlay), n.subnet)
  {
    ViewNicIff(fx, BoundaryScope(fx, overlay), ReachableVNets(fx, overlay), name);
  }

  /** Without slashes in VNet names these are exactly the reachable ones of the whole diagram. */
  lemma BoundaryViewMissesNoNic(fx: Fixture, overlay: OverlayMap, name: string)
    requires NoSlashes(fx.vnets)
    ensures HasNic(Project(fx, BoundaryScope(fx, overlay)), name)
       <==> HasNic(fx, name) && HasReachable(overlay, Node(Nic, name))
  {
    BoundaryViewNics(fx, overlay, name);
    if HasNic(Project(fx, BoundaryScope(fx, overlay)), name) {
      ViewNic(fx, BoundaryScope(fx, overlay), name);
    }
    if HasNic(fx, name) && HasReachable(overlay, Node(Nic, name)) {
      var n :| n in fx.nics && NicRid(n) == name && HasSubnet(fx, n.subnet);
      assert NicVNet(n) in ReachableVNets(fx, overlay);
      SubnetOfItsVNet(fx, ReachableVNets(fx, overlay), n);
    }
  }

  /** The names at either end of a cross-subscription peering. */
  function CrossNames(links: seq<Link>): set<string> {
    (set l | l in links && l.local.Some? :: l.local.value) + (set l | l in links && l.remote.Some? :: l.remote.value)
  }

  function CrossScope(fx: Fixture): Scope {
    var names := CrossNames(fx.crossPeerings);
    Scope(v => v in names, n => false, p => false, (kind, name) => false, false, true)
  }
}
