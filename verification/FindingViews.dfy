/** One small view per serious finding: the resource, and the VNets within k peering hops of it. */
module FindingViews {
  import opened Prelude
  import opened Ordering
  import opened Reachability
  import opened CellIds
  import opened Overlay
  import opened Fixtures
  import opened Diagram
  import opened DiagramContents
  import opened DiagramEdges
  import opened DiagramRender
  import opened Views
  import LayoutCheck

  // ---------------------------------------------------------------- peering neighbours

  /** A VNet's own peering counts when it names a remote; a cross-subscription one when it names both ends. */
  predicate Ties(l: Link) {
    l.local.Some? && Given(l.remote)
  }

  function TiedLinks(fx: Fixture): seq<Link> {
    LocalLinks(fx.vnets) + Filter((l: Link) => Given(l.local), fx.crossPeerings)
  }

  /** Peering arcs, in both directions. */
  function Arcs(links: seq<Link>): set<(string, string)> {
    (set l | l in links && Ties(l) :: (l.local.value, l.remote.value))
    + (set l | l in links && Ties(l) :: (l.remote.value, l.local.value))
  }

  function PeerArcs(fx: Fixture): set<(string, string)> {
    Arcs(TiedLinks(fx))
  }

  type Adjacency = map<string, set<string>>

  function Neighbours(adj: Adjacency, x: string): set<string> {
    if x in adj then adj[x] else {}
  }

  ghost predicate Represents(adj: Adjacency, links: seq<Link>) {
    forall x, y :: y in Neighbours(adj, x) <==> (x, y) in Arcs(links)
  }

  function WithNeighbour(adj: Adjacency, x: string, y: string): Adjacency {
    adj[x := Neighbours(adj, x) + {y}]
  }

  lemma ArcsOneMore(links: seq<Link>, l: Link)
    ensures Arcs(links + [l]) == Arcs(links) + if Ties(l) then {(l.local.value, l.remote.value), (l.remote.value, l.local.value)} else {}
  {
  }

  method Tie(adj: Adjacency, l: Link, ghost links: seq<Link>) returns (adj': Adjacency)
    requires Represents(adj, links)
    ensures Represents(adj', links + [l])
  {
    adj' := adj;
    ArcsOneMore(links, l);
    if Ties(l) {
      TiedNeighbours(adj, l.local.value, l.remote.value);
      adj' := WithNeighbour(adj', l.local.value, l.remote.value);
      adj' := WithNeighbour(adj', l.remote.value, l.local.value);
    }
  }

  lemma TiedNeighbours(adj: Adjacency, a: string, b: string)
    ensures forall x, y :: y in Neighbours(WithNeighbour(WithNeighbour(adj, a, b), b, a), x)
                      <==> y in Neighbours(adj, x) || (x, y) == (a, b) || (x, y) == (b, a)
  {
  }

  method TieAll(adj: Adjacency, more: seq<Link>, ghost links: seq<Link>) returns (adj': Adjacency)
    requires Represents(adj, links)
    ensures Represents(adj', links + more)
  {
    adj' := adj;
    assert links + more[..0] == links;
    for i := 0 to |more|
      invariant Represents(adj', links + more[..i])
    {
      assert links + more[..i + 1] == links + more[..i] + [more[i]];
      adj' := Tie(adj', more[i], links + more[..i]);
    }
    assert more[..|more|] == more;
  }

  method PeerAdjacency(fx: Fixture) returns (adj: Adjacency)
    ensures Represents(adj, TiedLinks(fx))
  {
    adj := map[];
    for i := 0 to |fx.vnets|
      invariant Represents(adj, LocalLinks(fx.vnets[..i]))
    {
      assert fx.vnets[..i + 1][..i] == fx.vnets[..i];
      adj := TieAll(adj, PeeringsOf(fx.vnets[i]), LocalLinks(fx.vnets[..i]));
    }
    assert fx.vnets[..|fx.vnets|] == fx.vnets;
    adj := TieAll(adj, Filter((l: Link) => Given(l.local), fx.crossPeerings), LocalLinks(fx.vnets));
  }

  // ---------------------------------------------------------------- k hops

  method Expand(adj: Adjacency, frontier: set<string>, ghost links: seq<Link>) returns (next: set<string>)
    requires Represents(adj, links)
    ensures next == Heads(Arcs(links), frontier)
  {
    next := {};
    var todo := frontier;
    while todo != {}
      invariant todo <= frontier
      invariant forall y :: y in next <==> exists x :: x in frontier && x !in todo && (x, y) in Arcs(links)
      decreases todo
    {
      var x :| x in todo;
      todo := todo - {x};
      next := next + Neighbours(adj, x);
    }
    assert forall y :: y in Heads(Arcs(links), frontier) <==> exists x :: x in frontier && (x, y) in Arcs(links);
  }

  /** Hop by hop, following every neighbour of the last frontier, visited or not. */
  method KHop(adj: Adjacency, center: string, k: nat, ghost links: seq<Link>) returns (khop: set<string>)
    requires Represents(adj, links)
    ensures khop == Ball(Arcs(links), center, k)
  {
    khop := {center};
    var frontier := {center};
    ghost var arcs := Arcs(links);
    for i := 0 to k
      invariant khop == Ball(arcs, center, i) && frontier <= khop
      invariant Heads(arcs, khop) <= khop + Heads(arcs, frontier)
    {
      var next := Expand(adj, frontier, links);
      HeadsJoin(arcs, khop, next);
      khop := khop + next;
      frontier := next;
    }
  }

  lemma HeadsJoin(arcs: set<(string, string)>, s: set<string>, t: set<string>)
    ensures Heads(arcs, s + t) == Heads(arcs, s) + Heads(arcs, t)
  {
  }

  // ---------------------------------------------------------------- the centre of a view

  function LastNic(nics: seq<NicDef>, rid: string): Option<NicDef> {
    if |nics| == 0 then None
    else if NicRid(nics[|nics| - 1]) == rid then Some(nics[|nics| - 1])
    else LastNic(nics[..|nics| - 1], rid)
  }

  function LastSubnet(xs: seq<Attached>, name: string): string {
    if |xs| == 0 then ""
    else if xs[|xs| - 1].name == name then (if xs[|xs| - 1].subnet.Some? then xs[|xs| - 1].subnet.value else "")
    else LastSubnet(xs[..|xs| - 1], name)
  }

  /** The VNet a view is centred on; empty when there is none. */
  function Center(fx: Fixture, kind: Kind, name: string): string {
    match kind
    case Nic => var n := LastNic(fx.nics, name); if n.Some? then NicVNet(n.value) else ""
    case AppGw => VNetPart(LastSubnet(fx.appGateways, name))
    case Aks => VNetPart(LastSubnet(fx.aksClusters, name))
    case Pe => VNetPart(LastSubnet(fx.privateEndpoints, name))
    case _ => ""
  }

  function Around(fx: Fixture, center: string, k: nat): set<string> {
    if center == "" then {} else Ball(PeerArcs(fx), center, k)
  }

  function FocusScope(kind: Kind, name: string, khop: set<string>): Scope {
    Scope(v => v in khop, n => kind.Nic? && NicRid(n) == name, p => false,
          (kk, nn) => !kind.Nic? && kk == kind && nn == name, true, true)
  }

  datatype View = View(fixture: Fixture, level: Level)

  function FocusView(fx: Fixture, kind: Kind, name: string, k: nat): View {
    View(Project(fx, FocusScope(kind, name, Around(fx, Center(fx, kind, name), k))), Mld)
  }

  /** A finding's view keeps exactly the VNets joined to its centre by at most `k` peerings. */
  lemma FocusKeepsNeighbourhood(fx: Fixture, kind: Kind, name: string, k: nat, v: string)
    ensures HasVNet(FocusView(fx, kind, name, k).fixture, v) <==>
            && HasVNet(fx, v) && Center(fx, kind, name) != ""
            && exists p :: WalkTo(PeerArcs(fx), Center(fx, kind, name), v, p) && |p| <= k + 1
  {
    var center := Center(fx, kind, name);
    var scope := FocusScope(kind, name, Around(fx, center, k));
    var holding := KeptSubnets(Filter(scope.keepNic, fx.nics));
    KeptVNetsMembers(fx.vnets, scope.keepVNet, holding);
    BallIsShortWalks(PeerArcs(fx), center, v, k);
    if HasVNet(fx, v) && scope.keepVNet(v) {
      var w :| w in fx.vnets && w.name == v;
      assert Trimmed(w, holding) in FocusView(fx, kind, name, k).fixture.vnets;
    }
  }

  lemma {:induction false} LastNicIsTheNic(nics: seq<NicDef>, n: NicDef)
    requires n in nics && KeysDistinct(NicRid, nics)
    ensures LastNic(nics, NicRid(n)) == Some(n)
  {
    var init, last := nics[..|nics| - 1], nics[|nics| - 1];
    assert nics == init + [last];
    if n != last {
      var i :| 0 <= i < |init| && init[i] == n;
      assert NicRid(nics[i]) != NicRid(nics[|nics| - 1]);
      LastNicIsTheNic(init, n);
    }
  }

  /** A network interface's view shows that one alone, exactly when it sits in a subnet of a VNet within
      reach of the centre. */
  lemma FocusViewNics(fx: Fixture, name: string, k: nat, other: string)
    ensures HasNic(FocusView(fx, Nic, name, k).fixture, other) <==>
            other == name
            && exists n :: n in fx.nics && NicRid(n) == name
                           && SubnetAmong(fx, Around(fx, Center(fx, Nic, name), k), n.subnet)
  {
    var khop := Around(fx, Center(fx, Nic, name), k);
    ViewNicIff(fx, FocusScope(Nic, name, khop), khop, other);
  }

  /** In a well-named estate, one drawn in the whole diagram is drawn in the view of its own findings. */
  lemma FocusShowsItsNic(fx: Fixture, name: string, k: nat, other: string)
    requires KeysDistinct(NicRid, fx.nics) && NoSlashes(fx.vnets) && HasNic(fx, name)
    requires forall v :: v in fx.vnets ==> v.name != ""
    ensures HasNic(FocusView(fx, Nic, name, k).fixture, other) <==> other == name
  {
    var n :| n in fx.nics && NicRid(n) == name && HasSubnet(fx, n.subnet);
    var v, sn :| v in fx.vnets && sn in v.subnets && n.subnet == SubnetKey(v.name, sn);
    LastNicIsTheNic(fx.nics, n);
    KeyNamesVNet(n, v.name, sn);
    BallMonotone(PeerArcs(fx), v.name, 0, k);
    SubnetOfItsVNet(fx, Around(fx, v.name, k), n);
    FocusViewNics(fx, name, k, other);
  }

  // ---------------------------------------------------------------- which findings get a view

  predicate Focusable(id: CellId) {
    id.Node? && id.kind in {Nic, AppGw, Aks, Apim, Fd, Vhub, Pe}
  }

  predicate Qualifies(f: Finding) {
    f.severity.Critical? || f.severity.High? || f.kind.AppGwWafDisabled? || f.kind.FrontDoorWafDisabled?
  }

  datatype Item = Item(kind: Kind, name: string, finding: Finding)

  function Resource(i: Item): string {
    i.finding.resource
  }

  function ItemsAt(id: CellId, fs: seq<Finding>): seq<Item> {
    if Focusable(id) then seq(|fs|, i requires 0 <= i < |fs| => Item(id.kind, id.name, fs[i])) else []
  }

  function Items(overlay: OverlayMap, ids: seq<CellId>): seq<Item>
    requires forall id :: id in ids ==> id in overlay
  {
    if |ids| == 0 then []
    else Items(overlay, ids[..|ids| - 1]) + ItemsAt(ids[|ids| - 1], overlay[ids[|ids| - 1]].findings)
  }

  function Resources(items: seq<Item>): set<string> {
    set i | i in items :: Resource(i)
  }

  /** The first qualifying finding of each resource. */
  function Chosen(items: seq<Item>): seq<Item> {
    if |items| == 0 then []
    else
      var before, i := Chosen(items[..|items| - 1]), items[|items| - 1];
      if Qualifies(i.finding) && Resource(i) !in Resources(before) then before + [i] else before
  }

  lemma LastChosen(items: seq<Item>)
    requires |items| > 0
    ensures var init, last := items[..|items| - 1], items[|items| - 1];
            Resources(Chosen(items)) == Resources(Chosen(init)) + if Qualifies(last.finding) then {Resource(last)} else {}
  {
    var init, last := items[..|items| - 1], items[|items| - 1];
    var before, all := Chosen(init), Chosen(items);
    if all != before {
      assert last in all;
      assert Resources(all) == Resources(before) + {Resource(last)};
    } else if Qualifies(last.finding) {
      assert Resource(last) in Resources(before);
    }
  }

  /** Every resource with a qualifying finding is chosen, once. */
  lemma {:induction false} ChosenOncePerResource(items: seq<Item>, r: string)
    ensures KeysDistinct(Resource, Chosen(items))
    ensures r in Resources(Chosen(items)) <==> exists i :: i in items && Qualifies(i.finding) && Resource(i) == r
    ensures forall f :: Qualifies(f) <==> f.severity in {Critical, High} || f.kind in {AppGwWafDisabled, FrontDoorWafDisabled}
    ensures forall i :: i in Chosen(items) ==> i in items && Qualifies(i.finding)
  {
    if |items| > 0 {
      var init, last := items[..|items| - 1], items[|items| - 1];
      assert items == init + [last];
      ChosenOncePerResource(init, r);
      LastChosen(items);
      var before := Chosen(init);
      forall i | 0 <= i < |before| && Resource(last) !in Resources(before) ensures Resource(before[i]) != Resource(last) {
        assert before[i] in before;
      }
      if i :| i in init && Qualifies(i.finding) && Resource(i) == r {
        assert i in items;
      }
      assert last in items;
    }
  }

  function FocusViews(fx: Fixture, items: seq<Item>, k: nat): seq<View> {
    seq(|items|, i requires 0 <= i < |items| => FocusView(fx, items[i].kind, items[i].name, k))
  }

  function ByText(a: CellId, b: CellId): bool {
    StringLe(Text(a), Text(b))
  }

  function SortedIds(order: seq<CellId>): (r: seq<CellId>)
    ensures multiset(r) == multiset(order)
  {
    Sort(ByText, order)
  }

  method ViewsOfFindings(fx: Fixture, overlay: OverlayMap, ids: seq<CellId>, k: nat) returns (out: seq<View>)
    requires forall id :: id in ids ==> id in overlay
    ensures out == FocusViews(fx, Chosen(Items(overlay, ids)), k)
  {
    var adj := PeerAdjacency(fx);
    out := [];
    var seen: set<string> := {};
    for i := 0 to |ids|
      invariant seen == Resources(Chosen(Items(overlay, ids[..i])))
      invariant out == FocusViews(fx, Chosen(Items(overlay, ids[..i])), k)
    {
      assert ids[..i + 1][..i] == ids[..i];
      var more := ItemsAt(ids[i], overlay[ids[i]].findings);
      out, seen := AddViews(fx, adj, more, k, out, seen, Items(overlay, ids[..i]));
    }
    assert ids[..|ids|] == ids;
  }

  method AddViews(fx: Fixture, adj: Adjacency, more: seq<Item>, k: nat, out: seq<View>, seen: set<string>, ghost items: seq<Item>)
    returns (out': seq<View>, seen': set<string>)
    requires Represents(adj, TiedLinks(fx))
    requires seen == Resources(Chosen(items)) && out == FocusViews(fx, Chosen(items), k)
    ensures seen' == Resources(Chosen(items + more)) && out' == FocusViews(fx, Chosen(items + more), k)
  {
    out', seen' := out, seen;
    assert items + more[..0] == items;
    for i := 0 to |more|
      invariant seen' == Resources(Chosen(items + more[..i])) && out' == FocusViews(fx, Chosen(items + more[..i]), k)
    {
      var it := more[i];
      assert items + more[..i + 1] == items + more[..i] + [it];
      ChosenOneMore(items + more[..i], it, fx, k);
      if Qualifies(it.finding) && it.finding.resource !in seen' {
        seen' := seen' + {it.finding.resource};
        var center := Center(fx, it.kind, it.name);
        var khop: set<string> := {};
        if center != "" {
          khop := KHop(adj, center, k, TiedLinks(fx));
        }
        out' := out' + [View(Project(fx, FocusScope(it.kind, it.name, khop)), Mld)];
      }
    }
    assert more[..|more|] == more;
  }

  lemma ChosenOneMore(items: seq<Item>, it: Item, fx: Fixture, k: nat)
    ensures var before := Chosen(items);
            if Qualifies(it.finding) && Resource(it) !in Resources(before)
            then Resources(Chosen(items + [it])) == Resources(before) + {Resource(it)}
                 && FocusViews(fx, Chosen(items + [it]), k) == FocusViews(fx, before, k) + [FocusView(fx, it.kind, it.name, k)]
            else Chosen(items + [it]) == before
  {
    assert (items + [it])[..|items|] == items;
    var before := Chosen(items);
    assert FocusViews(fx, before + [it], k) == FocusViews(fx, before, k) + [FocusView(fx, it.kind, it.name, k)];
    assert Resources(before + [it]) == Resources(before) + {Resource(it)};
  }

  // ---------------------------------------------------------------- the whole set of views

  function Overviews(fx: Fixture, overlay: OverlayMap): seq<View> {
    [View(fx, Hld), View(fx, Mld)]
    + [View(RiskView(fx, overlay), Mld)]
    + [View(Project(fx, BoundaryScope(fx, overlay)), Mld)]
    + CrossViews(fx)
  }

  function CrossViews(fx: Fixture): seq<View> {
    if CrossNames(fx.crossPeerings) == {} then [] else [View(Project(fx, CrossScope(fx)), Hld)]
  }

  function AllViews(fx: Fixture, overlay: OverlayMap, order: seq<CellId>, k: nat): seq<View>
    requires forall id :: id in order ==> id in overlay
  {
    SortedInOverlay(overlay, order);
    Overviews(fx, overlay) + FocusViews(fx, Chosen(Items(overlay, SortedIds(order))), k)
  }

  lemma SortedInOverlay(overlay: OverlayMap, order: seq<CellId>)
    requires forall id :: id in order ==> id in overlay
    ensures forall id :: id in SortedIds(order) ==> id in overlay
  {
    SameElements(SortedIds(order), order);
  }

  ghost predicate AllDrawable(views: seq<View>) {
    forall v :: v in views ==> Drawable(v.fixture, v.level)
  }

  lemma ProjectionDrawable(fx: Fixture, scope: Scope, level: Level)
    requires Drawable(fx, Mld)
    ensures AllDrawable([View(Project(fx, scope), level)])
  {
    EveryViewIsDrawable(fx, scope, level);
  }

  lemma AllDrawableJoin(s: seq<View>, t: seq<View>)
    requires AllDrawable(s) && AllDrawable(t)
    ensures AllDrawable(s + t)
  {
  }

  lemma WholeDrawable(fx: Fixture)
    requires Drawable(fx, Mld)
    ensures AllDrawable([View(fx, Hld), View(fx, Mld)])
  {
  }

  lemma CrossDrawable(fx: Fixture)
    requires Drawable(fx, Mld)
    ensures AllDrawable(CrossViews(fx))
  {
    ProjectionDrawable(fx, CrossScope(fx), Hld);
  }

  lemma FourDrawable(a: seq<View>, b: seq<View>, c: seq<View>, d: seq<View>)
    requires AllDrawable(a) && AllDrawable(b) && AllDrawable(c) && AllDrawable(d)
    ensures AllDrawable(a + b + c + d)
  {
    AllDrawableJoin(a, b);
    AllDrawableJoin(a + b, c);
    AllDrawableJoin(a + b + c, d);
  }

  lemma OverviewsDrawable(fx: Fixture, overlay: OverlayMap)
    requires Drawable(fx, Mld)
    ensures AllDrawable(Overviews(fx, overlay))
  {
    WholeDrawable(fx);
    ProjectionDrawable(fx, RiskScope(fx, overlay), Mld);
    ProjectionDrawable(fx, BoundaryScope(fx, overlay), Mld);
    CrossDrawable(fx);
    FourDrawable([View(fx, Hld), View(fx, Mld)], [View(RiskView(fx, overlay), Mld)],
                 [View(Project(fx, BoundaryScope(fx, overlay)), Mld)], CrossViews(fx));
  }

  lemma FocusViewsDrawable(fx: Fixture, items: seq<Item>, k: nat)
    requires Drawable(fx, Mld)
    ensures AllDrawable(FocusViews(fx, items, k))
  {
    forall v | v in FocusViews(fx, items, k) ensures Drawable(v.fixture, v.level) {
      var i :| 0 <= i < |items| && v == FocusView(fx, items[i].kind, items[i].name, k);
      var center := Center(fx, items[i].kind, items[i].name);
      EveryViewIsDrawable(fx, FocusScope(items[i].kind, items[i].name, Around(fx, center, k)), Mld);
    }
  }

  lemma AllViewsDrawable(fx: Fixture, overlay: OverlayMap, order: seq<CellId>, k: nat)
    requires (forall id :: id in order ==> id in overlay) && Drawable(fx, Mld)
    ensures AllDrawable(AllViews(fx, overlay, order, k))
  {
    SortedInOverlay(overlay, order);
    OverviewsDrawable(fx, overlay);
    FocusViewsDrawable(fx, Chosen(Items(overlay, SortedIds(order))), k);
  }

  /** Every view of a drawable estate renders, and the layout checker accepts it. */
  method GenerateViews(fx: Fixture, overlay: OverlayMap, order: seq<CellId>, k: nat)
    returns (results: seq<Result<seq<LayoutCheck.Problem<CellId>>, RenderError>>)
    requires forall id :: id in order ==> id in overlay
    ensures |results| == |AllViews(fx, overlay, order, k)|
    ensures Drawable(fx, Mld) ==> forall r :: r in results ==> r == Ok([])
  {
    SortedInOverlay(overlay, order);
    var views := Overviews(fx, overlay);
    var focus := ViewsOfFindings(fx, overlay, SortedIds(order), k);
    views := views + focus;
    results := RenderAll(views, overlay, order);
    if Drawable(fx, Mld) {
      AllViewsDrawable(fx, overlay, order, k);
    }
  }

  method RenderAll(views: seq<View>, overlay: OverlayMap, order: seq<CellId>)
    returns (results: seq<Result<seq<LayoutCheck.Problem<CellId>>, RenderError>>)
    requires forall id :: id in order ==> id in overlay
    ensures |results| == |views|
    ensures AllDrawable(views) ==> forall r :: r in results ==> r == Ok([])
  {
    results := [];
    for i := 0 to |views|
      invariant |results| == i
      invariant AllDrawable(views) ==> forall r :: r in results ==> r == Ok([])
    {
      assert views[i] in views;
      var r := RenderAndCheck(views[i].fixture, views[i].level, overlay, order);
      results := results + [r];
    }
  }
}
