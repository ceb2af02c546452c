/** Rendering: the two assertions made on every diagram, and when they hold. */
module DiagramRender {
  import opened Prelude
  import opened Ordering
  import opened CellIds
  import opened Overlay
  import opened Fixtures
  import opened Diagram
  import opened DiagramContents
  import opened DiagramEdges
  import opened DiagramBuilder
  import opened DiagramLayout
  import LayoutCheck

  datatype Drawing = Drawing(cells: seq<Cell>, edges: seq<Connector>)

  datatype RenderError = DuplicateIds | DanglingSource(id: CellId) | DanglingTarget(id: CellId)

  // ---------------------------------------------------------------- ids as written

  ghost predicate TextsDistinct(ids: seq<CellId>) {
    forall i, j :: 0 <= i < j < |ids| ==> Text(ids[i]) != Text(ids[j])
  }

  function AllIds(cells: seq<Cell>, edges: seq<Connector>): seq<CellId> {
    seq(|cells|, i requires 0 <= i < |cells| => cells[i].id) + seq(|edges|, i requires 0 <= i < |edges| => edges[i].id)
  }

  /** An id among the first `n` is written like a later one. */
  ghost predicate ClashBefore(ids: seq<CellId>, n: nat)
    requires n <= |ids|
  {
    exists i :: 0 <= i < n && ClashesAfter(ids, i, |ids|)
  }

  ghost predicate ClashesAfter(ids: seq<CellId>, i: nat, n: nat)
    requires i < |ids| && n <= |ids|
  {
    exists j :: i < j < n && Text(ids[i]) == Text(ids[j])
  }

  method HasDuplicates(ids: seq<CellId>) returns (dup: bool)
    ensures dup <==> !TextsDistinct(ids)
  {
    dup := false;
    for i := 0 to |ids|
      invariant dup <==> ClashBefore(ids, i)
    {
      var clash := HasTwin(ids, i);
      dup := dup || clash;
    }
    ClashOrDistinct(ids);
  }

  method HasTwin(ids: seq<CellId>, i: nat) returns (clash: bool)
    requires i < |ids|
    ensures clash <==> ClashesAfter(ids, i, |ids|)
  {
    clash := false;
    for j := i + 1 to |ids|
      invariant clash <==> ClashesAfter(ids, i, j)
    {
      if Text(ids[i]) == Text(ids[j]) {
        clash := true;
      }
    }
  }

  lemma ClashOrDistinct(ids: seq<CellId>)
    ensures ClashBefore(ids, |ids|) <==> !TextsDistinct(ids)
  {
    if !TextsDistinct(ids) {
      var i, j :| 0 <= i < j < |ids| && Text(ids[i]) == Text(ids[j]);
      assert ClashesAfter(ids, i, |ids|);
    }
  }

  ghost predicate Fresh(edges: seq<Connector>, cells: seq<Cell>) {
    && (forall i, j :: 0 <= i < j < |edges| ==> Text(edges[i].id) != Text(edges[j].id))
    && (forall i, j :: 0 <= i < |cells| && 0 <= j < |edges| ==> Text(cells[i].id) != Text(edges[j].id))
  }

  lemma FreshEdgesNeverClash(cells: seq<Cell>, edges: seq<Connector>)
    requires Fresh(edges, cells)
    ensures TextsDistinct(AllIds(cells, edges)) <==> IdsDistinct(cells)
  {
    if IdsDistinct(cells) {
      DistinctTogether(cells, edges);
    }
    if TextsDistinct(AllIds(cells, edges)) {
      CellsDistinct(cells, edges);
    }
  }

  lemma CellsDistinct(cells: seq<Cell>, edges: seq<Connector>)
    requires TextsDistinct(AllIds(cells, edges))
    ensures IdsDistinct(cells)
  {
    var ids := AllIds(cells, edges);
    forall i, j | 0 <= i < j < |cells| ensures cells[i].id != cells[j].id {
      assert ids[i] == cells[i].id && ids[j] == cells[j].id;
    }
  }

  lemma DistinctTogether(cells: seq<Cell>, edges: seq<Connector>)
    requires Fresh(edges, cells) && IdsDistinct(cells)
    ensures TextsDistinct(AllIds(cells, edges))
  {
    var ids, n := AllIds(cells, edges), |cells|;
    forall i, j | 0 <= i < j < |ids| ensures Text(ids[i]) != Text(ids[j]) {
      if j < n {
        CellsClash(cells, i, j);
      } else if i < n {
        assert ids[i] == cells[i].id && ids[j] == edges[j - n].id;
      } else {
        assert ids[i] == edges[i - n].id && ids[j] == edges[j - n].id;
      }
    }
  }

  /** Only cells can clash: the ids are distinct exactly when the cells' are. */
  lemma OnlyCellsClash(fx: Fixture, level: Level, overlay: OverlayMap, stubs: seq<string>, lines: seq<Line>)
    ensures TextsDistinct(AllIds(Cells(fx, level, overlay, stubs), Numbered(lines)))
       <==> IdsDistinct(Cells(fx, level, overlay, stubs))
  {
    var cells, edges := Cells(fx, level, overlay, stubs), Numbered(lines);
    forall i, j | 0 <= i < j < |edges| ensures Text(edges[i].id) != Text(edges[j].id) {
      LineIdsAreFresh(lines, fx, level, overlay, stubs, j);
    }
    forall i, j | 0 <= i < |cells| && 0 <= j < |edges| ensures Text(cells[i].id) != Text(edges[j].id) {
      LineIdsAreFresh(lines, fx, level, overlay, stubs, j);
      assert cells[i] in cells;
    }
    FreshEdgesNeverClash(cells, edges);
  }

  lemma CellsClash(cells: seq<Cell>, i: nat, j: nat)
    requires IdsDistinct(cells) && i < j < |cells|
    ensures Text(cells[i].id) != Text(cells[j].id)
  {
    if Text(cells[i].id) == Text(cells[j].id) {
      TextIsInjective(cells[i].id, cells[j].id);
      assert false;
    }
  }

  // ---------------------------------------------------------------- rendering

  /** Rendering fails only on duplicate cell ids; no edge ever dangles. */
  method Render(fx: Fixture, level: Level, overlay: OverlayMap, order: seq<CellId>) returns (r: Result<Drawing, RenderError>)
    requires forall id :: id in order ==> id in overlay
    ensures r == if IdsDistinct(Cells(fx, level, overlay, StubsOf(fx)))
                 then Ok(Drawing(Cells(fx, level, overlay, StubsOf(fx)), Numbered(Lines(fx, level, overlay, order))))
                 else Err(DuplicateIds)
  {
    var canvas := Build(fx, level, overlay, order);
    OnlyCellsClash(fx, level, overlay, StubsOf(fx), Lines(fx, level, overlay, order));
    NothingDangles(fx, level, overlay, order);
    var failure := Assertions(canvas.cells, canvas.edges, canvas.vertexIds);
    r := if failure.Some? then Err(failure.value) else Ok(Drawing(canvas.cells, canvas.edges));
  }

  method Assertions(cells: seq<Cell>, edges: seq<Connector>, vertexIds: set<CellId>) returns (failure: Option<RenderError>)
    ensures failure == Some(DuplicateIds) <==> !TextsDistinct(AllIds(cells, edges))
    ensures failure.None? <==> TextsDistinct(AllIds(cells, edges)) && Joined(edges, vertexIds)
  {
    var dup := HasDuplicates(AllIds(cells, edges));
    if dup {
      return Some(DuplicateIds);
    }
    failure := FirstDangling(edges, vertexIds);
  }

  ghost predicate Joined(edges: seq<Connector>, vertexIds: set<CellId>) {
    forall e :: e in edges ==> e.source in vertexIds && e.target in vertexIds
  }

  method FirstDangling(edges: seq<Connector>, vertexIds: set<CellId>) returns (r: Option<RenderError>)
    ensures r.None? <==> Joined(edges, vertexIds)
    ensures r != Some(DuplicateIds)
  {
    for i := 0 to |edges|
      invariant Joined(edges[..i], vertexIds)
    {
      assert edges[..i + 1] == edges[..i] + [edges[i]];
      if edges[i].source !in vertexIds {
        return Some(DanglingSource(edges[i].source));
      }
      if edges[i].target !in vertexIds {
        return Some(DanglingTarget(edges[i].target));
      }
    }
    assert edges[..|edges|] == edges;
    return None;
  }

  lemma NothingDangles(fx: Fixture, level: Level, overlay: OverlayMap, order: seq<CellId>)
    requires forall id :: id in order ==> id in overlay
    ensures Joined(Numbered(Lines(fx, level, overlay, order)), Ids(Cells(fx, level, overlay, StubsOf(fx))))
  {
    var lines := Lines(fx, level, overlay, order);
    forall e | e in Numbered(lines)
      ensures e.source in Ids(Cells(fx, level, overlay, StubsOf(fx))) && e.target in Ids(Cells(fx, level, overlay, StubsOf(fx)))
    {
      var i :| 0 <= i < |lines| && e == Numbered(lines)[i];
      NoLineDangles(fx, level, overlay, order, lines[i]);
    }
  }

  /** What the layout gate does with a diagram. */
  method RenderAndCheck(fx: Fixture, level: Level, overlay: OverlayMap, order: seq<CellId>)
    returns (r: Result<seq<LayoutCheck.Problem<CellId>>, RenderError>)
    requires forall id :: id in order ==> id in overlay
    ensures Drawable(fx, level) ==> r == Ok([])
  {
    var drawing := Render(fx, level, overlay, order);
    if drawing.Err? {
      StubsAreOutsiders(Peered(Links(fx)), VNetNames(fx.vnets));
      if Drawable(fx, level) {
        EveryDiagramIsLegible(fx, level, overlay, StubsOf(fx));
      }
      return Err(drawing.error);
    }
    var problems, _ := LayoutCheck.Check(Shapes(drawing.value.cells));
    StubsAreOutsiders(Peered(Links(fx)), VNetNames(fx.vnets));
    if Drawable(fx, level) {
      EveryDiagramIsLegible(fx, level, overlay, StubsOf(fx));
    }
    return Ok(problems);
  }

  // ---------------------------------------------------------------- when ids collide

  ghost predicate HasBox(cells: seq<Cell>, v: string, key: string) {
    exists c :: c in cells && c.id == Node(Subnet, key) && c.parent == Node(Vnet, v)
  }

  lemma HasBoxJoin(s: seq<Cell>, t: seq<Cell>, v: string, key: string)
    requires HasBox(s, v, key) || HasBox(t, v, key)
    ensures HasBox(s + t, v, key)
  {
    var u := if HasBox(s, v, key) then s else t;
    var c :| c in u && c.id == Node(Subnet, key) && c.parent == Node(Vnet, v);
    assert c in s + t;
  }

  lemma {:induction false} SubnetHasBox(nics: seq<NicDef>, v: string, subnets: seq<string>, overlay: OverlayMap, sn: string)
    requires sn in subnets
    ensures HasBox(SubnetBlocks(nics, v, subnets, overlay), v, SubnetKey(v, sn))
  {
    var init, last := subnets[..|subnets| - 1], subnets[|subnets| - 1];
    var block := SubnetBlock(nics, v, last, SubnetY(nics, v, init), overlay);
    if sn == last {
      assert SubnetCell(nics, v, last, SubnetY(nics, v, init)) in block;
    } else {
      assert subnets == init + [last];
      SubnetHasBox(nics, v, init, overlay, sn);
    }
    HasBoxJoin(SubnetBlocks(nics, v, init, overlay), block, v, SubnetKey(v, sn));
  }

  lemma {:induction false} VNetHasBox(fx: Fixture, vs: seq<VNet>, overlay: OverlayMap, v: VNet, sn: string)
    requires v in vs && sn in v.subnets
    ensures HasBox(VNetBlocks(fx, vs, Mld, overlay), v.name, SubnetKey(v.name, sn))
  {
    var init, last := vs[..|vs| - 1], vs[|vs| - 1];
    var block := VNetBlock(fx, last, Mld, VNetX(|init|), overlay);
    if v == last {
      SubnetHasBox(fx.nics, v.name, v.subnets, overlay, sn);
      HasBoxJoin([VNetCell(fx, v, Mld, VNetX(|init|), overlay)], SubnetBlocks(fx.nics, v.name, v.subnets, overlay),
                 v.name, SubnetKey(v.name, sn));
    } else {
      assert vs == init + [last];
      VNetHasBox(fx, init, overlay, v, sn);
    }
    HasBoxJoin(VNetBlocks(fx, init, Mld, overlay), block, v.name, SubnetKey(v.name, sn));
  }

  lemma EverySubnetHasBox(fx: Fixture, overlay: OverlayMap, stubs: seq<string>, v: VNet, sn: string)
    requires v in fx.vnets && sn in v.subnets
    ensures HasBox(Cells(fx, Mld, overlay, stubs), v.name, SubnetKey(v.name, sn))
  {
    var vs, key := Ordered(fx.vnets), SubnetKey(v.name, sn);
    SameElements(fx.vnets, vs);
    VNetHasBox(fx, vs, overlay, v, sn);
    var row := VNetBlocks(fx, vs, Mld, overlay);
    var top, out := Row(BoundarySlots(fx, overlay), 40, GAP_X), Row(StubSlots(stubs, StubY(fx, Mld)), 40, 40);
    HasBoxJoin(top, row, v.name, key);
    HasBoxJoin(top + row, out, v.name, key);
    HasBoxJoin(top + row + out, AppBand(fx, Mld, stubs, overlay), v.name, key);
    HasBoxJoin(top + row + out + AppBand(fx, Mld, stubs, overlay), [LegendCell(fx, overlay)], v.name, key);
  }

  /** When names are unique within their kind, rendering succeeds exactly when the subnet keys shown tell subnets apart. */
  lemma RenderableIffKeysApart(fx: Fixture, level: Level, overlay: OverlayMap)
    requires UniquelyNamed(fx)
    ensures IdsDistinct(Cells(fx, level, overlay, StubsOf(fx))) <==> level.Hld? || SubnetKeysApart(fx.vnets)
  {
    var stubs := StubsOf(fx);
    var cells := Cells(fx, level, overlay, stubs);
    StubsAreOutsiders(Peered(Links(fx)), VNetNames(fx.vnets));
    if level.Hld? || SubnetKeysApart(fx.vnets) {
      EveryDiagramIsLegible(fx, level, overlay, stubs);
    }
    if IdsDistinct(cells) && level.Mld? {
      forall v, w, s, t | v in fx.vnets && w in fx.vnets && s in v.subnets && t in w.subnets
                          && SubnetKey(v.name, s) == SubnetKey(w.name, t)
        ensures v.name == w.name
      {
        EverySubnetHasBox(fx, overlay, stubs, v, s);
        EverySubnetHasBox(fx, overlay, stubs, w, t);
        OneBoxPerKey(cells, v.name, w.name, SubnetKey(v.name, s));
      }
    }
  }

  lemma OneBoxPerKey(cells: seq<Cell>, v: string, w: string, key: string)
    requires IdsDistinct(cells) && HasBox(cells, v, key) && HasBox(cells, w, key)
    ensures v == w
  {
    var i :| 0 <= i < |cells| && cells[i].id == Node(Subnet, key) && cells[i].parent == Node(Vnet, v);
    var j :| 0 <= j < |cells| && cells[j].id == Node(Subnet, key) && cells[j].parent == Node(Vnet, w);
  }

  /** A slash in a VNet name can make two subnets share a key, and then nothing is rendered. */
  lemma SlashCanCollide(fx: Fixture, overlay: OverlayMap)
    requires fx.vnets == [VNet("a/b", [], ["c"]), VNet("a", [], ["b/c"])] && UniquelyNamed(fx)
    ensures !IdsDistinct(Cells(fx, Mld, overlay, StubsOf(fx)))
  {
    RenderableIffKeysApart(fx, Mld, overlay);
    SlashesCollide();
    var v, w := fx.vnets[0], fx.vnets[1];
    assert v in fx.vnets && w in fx.vnets && v.subnets[0] in v.subnets && w.subnets[0] in w.subnets;
    assert |v.name| == 3 && |w.name| == 1;
  }
}
