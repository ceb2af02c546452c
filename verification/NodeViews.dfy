/** Which resources get a finding view of their own, and which share another's. */
module NodeViews {
  import opened Prelude
  import opened Ordering
  import opened CellIds
  import opened Overlay
  import opened FindingViews

  /** Some view is centred on the node. */
  ghost predicate GetsView(items: seq<Item>, id: CellId) {
    exists x :: x in Chosen(items) && Node(x.kind, x.name) == id
  }

  /** The node has a finding serious enough for a view. */
  ghost predicate Serious(overlay: OverlayMap, id: CellId) {
    && id in overlay && id.Node? && id.kind in {Nic, AppGw, Aks, Apim, Fd, Vhub, Pe}
    && exists f :: f in overlay[id].findings
                   && (f.severity in {Critical, High} || f.kind in {AppGwWafDisabled, FrontDoorWafDisabled})
  }

  /** Findings are filed under the nodes named after their resources. */
  ghost predicate FiledByName(overlay: OverlayMap) {
    forall id, f :: id in overlay && Focusable(id) && f in overlay[id].findings ==> f.resource == id.name
  }

  lemma ComputedIsFiledByName(overlay: OverlayMap, findings: seq<Finding>)
    requires Computed(overlay, findings)
    ensures FiledByName(overlay)
  {
    forall id, f | id in overlay && Focusable(id) && f in overlay[id].findings ensures f.resource == id.name {
      assert OverlayAt(overlay, id, Painting(findings, id));
      PaintingMembers(findings, id);
      assert id in NodeIds(f);
    }
  }

  lemma {:induction false} ItemsMembers(overlay: OverlayMap, ids: seq<CellId>, x: Item)
    requires forall id :: id in ids ==> id in overlay
    ensures x in Items(overlay, ids) <==>
            Node(x.kind, x.name) in ids && Focusable(Node(x.kind, x.name))
            && x.finding in overlay[Node(x.kind, x.name)].findings
  {
    if |ids| > 0 {
      var init, last := ids[..|ids| - 1], ids[|ids| - 1];
      assert ids == init + [last];
      ItemsMembers(overlay, init, x);
      ItemsAtMembers(last, overlay[last].findings, x);
    }
  }

  lemma ItemsAtMembers(id: CellId, fs: seq<Finding>, x: Item)
    ensures x in ItemsAt(id, fs) <==> Focusable(id) && Node(x.kind, x.name) == id && x.finding in fs
  {
    if Focusable(id) && Node(x.kind, x.name) == id && x.finding in fs {
      var i :| 0 <= i < |fs| && fs[i] == x.finding;
      assert ItemsAt(id, fs)[i] == x;
    }
  }

  lemma NameTakenIff(overlay: OverlayMap, ids: seq<CellId>, name: string)
    requires FiledByName(overlay) && forall id :: id in ids ==> id in overlay
    ensures name in Resources(Chosen(Items(overlay, ids))) <==> exists id :: id in ids && Serious(overlay, id) && id.name == name
  {
    var items := Items(overlay, ids);
    ChosenOncePerResource(items, name);
    if i :| i in items && Qualifies(i.finding) && Resource(i) == name {
      ItemsMembers(overlay, ids, i);
      assert Serious(overlay, Node(i.kind, i.name));
    }
    if id :| id in ids && Serious(overlay, id) && id.name == name {
      var f :| f in overlay[id].findings && Qualifies(f);
      ItemsMembers(overlay, ids, Item(id.kind, id.name, f));
    }
  }

  /** What `more`, all of one resource `r`, adds to the choice: nothing, or one item. */
  ghost predicate AddsAtMostOne(items: seq<Item>, more: seq<Item>, r: string) {
    if r in Resources(Chosen(items)) || (forall x :: x in more ==> !Qualifies(x.finding))
    then Chosen(items + more) == Chosen(items)
    else exists x :: x in more && Chosen(items + more) == Chosen(items) + [x]
  }

  lemma {:induction false} ChosenOfOne(items: seq<Item>, more: seq<Item>, r: string)
    requires forall x :: x in more ==> Resource(x) == r
    ensures AddsAtMostOne(items, more, r)
    decreases |more|
  {
    if |more| == 0 {
      assert items + more == items;
    } else {
      var init, last := more[..|more| - 1], more[|more| - 1];
      assert more == init + [last];
      ChosenOfOne(items, init, r);
      OneMoreOfOne(items, init, last, r);
    }
  }

  lemma OneMoreOfOne(items: seq<Item>, more: seq<Item>, last: Item, r: string)
    requires AddsAtMostOne(items, more, r) && (forall x :: x in more ==> Resource(x) == r) && Resource(last) == r
    ensures AddsAtMostOne(items, more + [last], r)
  {
    var sofar := items + more;
    assert items + (more + [last]) == sofar + [last] && (sofar + [last])[..|sofar|] == sofar;
    assert last in more + [last];
    if r !in Resources(Chosen(items)) && exists x :: x in more && Qualifies(x.finding) {
      var x :| x in more && Chosen(sofar) == Chosen(items) + [x];
      assert x in Chosen(sofar) && x in more + [last];
    }
  }

  /** A node gets a view exactly when it is serious and no serious node of its name comes before it. */
  ghost predicate FirstOfItsName(overlay: OverlayMap, ids: seq<CellId>, id: CellId) {
    exists p :: 0 <= p < |ids| && ids[p] == id && Serious(overlay, id) && NoneBefore(overlay, ids, p, id)
  }

  ghost predicate NoneBefore(overlay: OverlayMap, ids: seq<CellId>, p: nat, id: CellId)
    requires p <= |ids| && id.Node?
  {
    forall q :: 0 <= q < p ==> !(Serious(overlay, ids[q]) && ids[q].name == id.name)
  }

  lemma ItemsOfOne(overlay: OverlayMap, id: CellId)
    requires FiledByName(overlay) && id in overlay
    ensures forall x :: x in ItemsAt(id, overlay[id].findings) ==> Node(x.kind, x.name) == id && Resource(x) == x.name
    ensures (exists x :: x in ItemsAt(id, overlay[id].findings) && Qualifies(x.finding)) <==> Serious(overlay, id)
  {
    var more := ItemsAt(id, overlay[id].findings);
    forall x | x in more ensures Node(x.kind, x.name) == id && Resource(x) == x.name {
      ItemsAtMembers(id, overlay[id].findings, x);
    }
    if x :| x in more && Qualifies(x.finding) {
      ItemsAtMembers(id, overlay[id].findings, x);
    }
    if Serious(overlay, id) {
      var f :| f in overlay[id].findings && Qualifies(f);
      ItemsAtMembers(id, overlay[id].findings, Item(id.kind, id.name, f));
    }
  }

  /** One more node adds a view exactly when it is serious and its name is not taken. */
  lemma OneMoreNode(overlay: OverlayMap, ids: seq<CellId>, last: CellId, id: CellId)
    requires FiledByName(overlay) && last in overlay && forall x :: x in ids ==> x in overlay
    ensures GetsView(Items(overlay, ids + [last]), id) <==>
            || GetsView(Items(overlay, ids), id)
            || (last == id && Serious(overlay, id) && NoneBefore(overlay, ids, |ids|, id))
  {
    var items, more := Items(overlay, ids), ItemsAt(last, overlay[last].findings);
    assert (ids + [last])[..|ids|] == ids;
    ItemsOfOne(overlay, last);
    if Focusable(last) {
      ChosenOfOne(items, more, last.name);
      NameTakenIff(overlay, ids, last.name);
      NoneBeforeIff(overlay, ids, last);
      if Serious(overlay, last) && last.name !in Resources(Chosen(items)) {
        var x :| x in more && Chosen(items + more) == Chosen(items) + [x];
        assert x in Chosen(items + more) && Node(x.kind, x.name) == last;
        if GetsView(items, id) {
          var y :| y in Chosen(items) && Node(y.kind, y.name) == id;
          assert y in Chosen(items + more);
        }
      }
    } else {
      assert items + more == items;
    }
  }

  lemma NoneBeforeIff(overlay: OverlayMap, ids: seq<CellId>, id: CellId)
    requires id.Node?
    ensures NoneBefore(overlay, ids, |ids|, id) <==> !exists x :: x in ids && Serious(overlay, x) && x.name == id.name
  {
    if x :| x in ids && Serious(overlay, x) && x.name == id.name {
      var q :| 0 <= q < |ids| && ids[q] == x;
    }
  }

  lemma {:induction false} NodesWithViews(overlay: OverlayMap, ids: seq<CellId>, id: CellId)
    requires FiledByName(overlay) && id.Node? && forall x :: x in ids ==> x in overlay
    ensures GetsView(Items(overlay, ids), id) <==> FirstOfItsName(overlay, ids, id)
  {
    if |ids| == 0 {
      assert Items(overlay, ids) == [] && Chosen([]) == [];
    } else {
      var init, last := ids[..|ids| - 1], ids[|ids| - 1];
      assert ids == init + [last];
      NodesWithViews(overlay, init, id);
      OneMoreNode(overlay, init, last, id);
      FirstOneMore(overlay, init, last, id);
    }
  }

  lemma FirstOneMore(overlay: OverlayMap, ids: seq<CellId>, last: CellId, id: CellId)
    requires id.Node?
    ensures FirstOfItsName(overlay, ids + [last], id) <==>
            || FirstOfItsName(overlay, ids, id)
            || (last == id && Serious(overlay, id) && NoneBefore(overlay, ids, |ids|, id))
  {
    var more := ids + [last];
    if FirstOfItsName(overlay, ids, id) {
      var p :| 0 <= p < |ids| && ids[p] == id && Serious(overlay, id) && NoneBefore(overlay, ids, p, id);
      assert more[p] == id && NoneBefore(overlay, more, p, id);
    }
    if last == id && Serious(overlay, id) && NoneBefore(overlay, ids, |ids|, id) {
      assert more[|ids|] == id && NoneBefore(overlay, more, |ids|, id);
    }
    if FirstOfItsName(overlay, more, id) {
      var p :| 0 <= p < |more| && more[p] == id && Serious(overlay, id) && NoneBefore(overlay, more, p, id);
      forall q | 0 <= q < p ensures !(Serious(overlay, ids[q]) && ids[q].name == id.name) {
        assert more[q] == ids[q];
      }
      if p < |ids| {
        assert ids[p] == id && NoneBefore(overlay, ids, p, id);
      }
    }
  }

  lemma ByTextRanking()
    ensures Ranking(ByText)
  {
    StringLeRanking();
  }

  /** Views are shared by name: a node gets one of its own exactly when it has a qualifying finding and no
      other such node of its name comes before it in the order of the written ids. */
  lemma NodeGetsViewIff(overlay: OverlayMap, order: seq<CellId>, id: CellId)
    requires FiledByName(overlay) && id.Node?
    requires forall x :: x in order <==> x in overlay
    ensures (forall x :: x in SortedIds(order) ==> x in overlay)
    ensures GetsView(Items(overlay, SortedIds(order)), id) <==>
            Serious(overlay, id)
            && forall x :: Serious(overlay, x) && x.name == id.name && x != id ==> StringLess(Text(id), Text(x))
  {
    var ids := SortedIds(order);
    SameElements(ids, order);
    ByTextRanking();
    SortSorts(ByText, order);
    NodesWithViews(overlay, ids, id);
    if Serious(overlay, id) {
      FirstIffLeast(overlay, ids, id);
    }
  }

  lemma FirstIffLeast(overlay: OverlayMap, ids: seq<CellId>, id: CellId)
    requires Serious(overlay, id) && Sorted(ByText, ids) && forall x :: x in ids <==> x in overlay
    ensures FirstOfItsName(overlay, ids, id) <==>
            forall x :: Serious(overlay, x) && x.name == id.name && x != id ==> StringLess(Text(id), Text(x))
  {
    if FirstOfItsName(overlay, ids, id) {
      var p :| 0 <= p < |ids| && ids[p] == id && Serious(overlay, id) && NoneBefore(overlay, ids, p, id);
      forall x | Serious(overlay, x) && x.name == id.name && x != id ensures StringLess(Text(id), Text(x)) {
        var q :| 0 <= q < |ids| && ids[q] == x;
        assert p < q;
        assert ByText(ids[p], ids[q]);
        if Text(id) == Text(x) {
          TextIsInjective(id, x);
        }
      }
    }
    if forall x :: Serious(overlay, x) && x.name == id.name && x != id ==> StringLess(Text(id), Text(x)) {
      var p := FirstPlace(ids, id);
      forall q | 0 <= q < p ensures !(Serious(overlay, ids[q]) && ids[q].name == id.name) {
        if Serious(overlay, ids[q]) && ids[q].name == id.name {
          assert ByText(ids[q], ids[p]) && StringLess(Text(id), Text(ids[q]));
          StringLeAntisymmetric(Text(id), Text(ids[q]));
        }
      }
      assert NoneBefore(overlay, ids, p, id);
    }
  }

  lemma FirstPlace(ids: seq<CellId>, id: CellId) returns (p: nat)
    requires id in ids
    ensures p < |ids| && ids[p] == id && forall q :: 0 <= q < p ==> ids[q] != id
  {
    p := 0;
    while ids[p] != id
      invariant p < |ids| && forall q :: 0 <= q < p ==> ids[q] != id
      decreases |ids| - p
    {
      p := p + 1;
    }
  }

  lemma GatewayComesFirst(name: string)
    ensures StringLess(Text(Node(AppGw, name)), Text(Node(Nic, name))) && !StringLess(Text(Node(Nic, name)), Text(Node(AppGw, name)))
  {
    assert Text(Node(AppGw, name))[0] == 'a' && Text(Node(Nic, name))[0] == 'n';
  }

  function TwoNodes(f: Finding, g: Finding): OverlayMap {
    map[Node(Nic, "edge") := Entry(f.severity, [f]), Node(AppGw, "edge") := Entry(g.severity, [g])]
  }

  lemma TwoNodesSerious(f: Finding, g: Finding)
    requires f.resource == g.resource == "edge" && Qualifies(f) && Qualifies(g)
    ensures FiledByName(TwoNodes(f, g))
    ensures forall x :: Serious(TwoNodes(f, g), x) <==> x == Node(Nic, "edge") || x == Node(AppGw, "edge")
  {
    var overlay := TwoNodes(f, g);
    assert f in overlay[Node(Nic, "edge")].findings && g in overlay[Node(AppGw, "edge")].findings;
  }

  /** A network interface and a gateway of the same name share the gateway's view. */
  lemma SameNameSharesView(f: Finding, g: Finding)
    requires f.resource == g.resource == "edge" && Qualifies(f) && Qualifies(g)
    ensures (forall x :: x in SortedIds([Node(Nic, "edge"), Node(AppGw, "edge")]) ==> x in TwoNodes(f, g))
    ensures var items := Items(TwoNodes(f, g), SortedIds([Node(Nic, "edge"), Node(AppGw, "edge")]));
            GetsView(items, Node(AppGw, "edge")) && !GetsView(items, Node(Nic, "edge"))
  {
    TwoNodesSerious(f, g);
    GatewayComesFirst("edge");
    NodeGetsViewIff(TwoNodes(f, g), [Node(Nic, "edge"), Node(AppGw, "edge")], Node(AppGw, "edge"));
    NodeGetsViewIff(TwoNodes(f, g), [Node(Nic, "edge"), Node(AppGw, "edge")], Node(Nic, "edge"));
  }
}
