/** The lines of a diagram: which are drawn, between what, and under which ids. */
module DiagramEdges {
  import opened Prelude
  import opened Ordering
  import opened CellIds
  import opened Overlay
  import opened Fixtures
  import opened Diagram
  import opened DiagramContents

  datatype Pair = Pair(a: string, b: string)

  datatype Line = Line(prefix: Prefix, source: CellId, target: CellId)

  datatype Connector = Connector(id: CellId, source: CellId, target: CellId)

  // ---------------------------------------------------------------- peerings

  function Given(x: Option<string>): bool {
    x.Some? && |x.value| > 0
  }

  /** The two ends of a peering, unless one is missing or they are the same. */
  function Ends(l: Link): Option<Pair> {
    if Given(l.local) && Given(l.remote) && l.local != l.remote then Some(Pair(l.local.value, l.remote.value)) else None
  }

  function PeeringsOf(v: VNet): seq<Link> {
    seq(|v.peerings|, i requires 0 <= i < |v.peerings| => Link(Some(v.name), v.peerings[i]))
  }

  function LocalLinks(vnets: seq<VNet>): seq<Link> {
    if |vnets| == 0 then [] else LocalLinks(vnets[..|vnets| - 1]) + PeeringsOf(vnets[|vnets| - 1])
  }

  function Links(fx: Fixture): seq<Link> {
    LocalLinks(fx.vnets) + fx.crossPeerings
  }

  /** The sorted pair. */
  function Key(p: Pair): Pair {
    if StringLe(p.a, p.b) then p else Pair(p.b, p.a)
  }

  function Keys(ps: seq<Pair>): set<Pair> {
    set p | p in ps :: Key(p)
  }

  /** The peerings that get a line: the first of every pair of names. */
  function Peered(links: seq<Link>): seq<Pair> {
    if |links| == 0 then []
    else
      var before, ends := Peered(links[..|links| - 1]), Ends(links[|links| - 1]);
      if ends.None? || Key(ends.value) in Keys(before) then before else before + [ends.value]
  }

  function VNetNames(vnets: seq<VNet>): set<string> {
    set v | v in vnets :: v.name
  }

  function EndId(name: string, names: set<string>): CellId {
    if name in names then Node(Vnet, name) else Node(Ext, name)
  }

  function PeerLine(p: Pair, names: set<string>): Line {
    Line(Peer, EndId(p.a, names), EndId(p.b, names))
  }

  function PeerLines(ps: seq<Pair>, names: set<string>): seq<Line> {
    seq(|ps|, i requires 0 <= i < |ps| => PeerLine(ps[i], names))
  }

  /** A name outside the fixture gets a stub, once. */
  function AddStub(stubs: seq<string>, name: string, names: set<string>): seq<string> {
    if name in names || name in stubs then stubs else stubs + [name]
  }

  function Stubs(ps: seq<Pair>, names: set<string>): seq<string> {
    if |ps| == 0 then []
    else
      var p := ps[|ps| - 1];
      AddStub(AddStub(Stubs(ps[..|ps| - 1], names), p.a, names), p.b, names)
  }

  function StubsOf(fx: Fixture): seq<string> {
    Stubs(Peered(Links(fx)), VNetNames(fx.vnets))
  }

  // ---------------------------------------------------------------- overlapping address spaces

  /** The findings of the overlay's entries, in the order the entries were made. */
  function FindingsIn(overlay: OverlayMap, order: seq<CellId>): seq<Finding>
    requires forall id :: id in order ==> id in overlay
  {
    if |order| == 0 then []
    else FindingsIn(overlay, order[..|order| - 1]) + overlay[order[|order| - 1]].findings
  }

  function Overlaps(fs: seq<Finding>, names: set<string>): seq<Pair> {
    if |fs| == 0 then []
    else
      var before, f := Overlaps(fs[..|fs| - 1], names), fs[|fs| - 1];
      var p := OverlapPair(f);
      if !f.kind.CidrOverlap? || Key(p) in Keys(before) || p.a !in names || p.b !in names then before else before + [p]
  }

  function OverlapPair(f: Finding): Pair {
    var ab := SplitPair(f.resource);
    Pair(ab.0, ab.1)
  }

  function OverlapLine(p: Pair): Line {
    Line(Cidr, Node(Vnet, p.a), Node(Vnet, p.b))
  }

  function OverlapLines(ps: seq<Pair>): seq<Line> {
    seq(|ps|, i requires 0 <= i < |ps| => OverlapLine(ps[i]))
  }

  // ---------------------------------------------------------------- exposure

  /** The finding's type text has the word "reachable" in it. */
  predicate SaysReachable(k: FindingKind) {
    k.NsgReachable? || k.LoadBalancerNat? || (k.UnknownKind? && Contains("reachable", k.text))
  }

  predicate Exposing(f: Finding) {
    f.reachable && SaysReachable(f.kind)
  }

  predicate Exposed(overlay: OverlayMap, id: CellId) {
    id in overlay && exists f :: f in overlay[id].findings && Exposing(f)
  }

  function ExposureTarget(n: NicDef, level: Level): CellId {
    if level.Mld? then Node(Nic, NicRid(n)) else Node(Vnet, NicVNet(n))
  }

  function ExposureLines(nics: seq<NicDef>, level: Level, overlay: OverlayMap, drawn: set<CellId>): seq<Line> {
    if |nics| == 0 then []
    else
      var before, n := ExposureLines(nics[..|nics| - 1], level, overlay, drawn), nics[|nics| - 1];
      if Exposed(overlay, Node(Nic, n.name)) && ExposureTarget(n, level) in drawn
      then before + [Line(Exp, Internet, ExposureTarget(n, level))] else before
  }

  // ---------------------------------------------------------------- hub and application links

  function GatewayLines(names: seq<string>, hub: string): seq<Line> {
    seq(|names|, i requires 0 <= i < |names| => Line(GwLink, Node(Gw, names[i]), Node(Vnet, hub)))
  }

  function HubLines(fx: Fixture): seq<Line> {
    if |fx.vnets| == 0 then []
    else
      var hub := Ordered(fx.vnets)[0].name;
      GatewayLines(fx.gateways, hub)
      + if fx.firewall.Some? then [Line(FwLink, Node(Fw, fx.firewall.value), Node(Vnet, hub))] else []
  }

  /** The part before the first slash, or all of it. */
  function BeforeSlash(s: string): string {
    FirstWithin('/', s);
    s[..First('/', s)]
  }

  function AppLine(a: AppItem, internet: bool, drawn: set<CellId>): Option<Line> {
    if a.isEdge && internet then Some(Line(AppEdge, Internet, AppId(a)))
    else if Given(a.subnet) && Node(Vnet, BeforeSlash(a.subnet.value)) in drawn
    then Some(Line(AppEdge, AppId(a), Node(Vnet, BeforeSlash(a.subnet.value))))
    else None
  }

  function AppLines(items: seq<AppItem>, internet: bool, drawn: set<CellId>): seq<Line> {
    if |items| == 0 then []
    else
      var before, line := AppLines(items[..|items| - 1], internet, drawn), AppLine(items[|items| - 1], internet, drawn);
      if line.Some? then before + [line.value] else before
  }

  // ---------------------------------------------------------------- all lines

  function OverlapLinesOf(fx: Fixture, overlay: OverlayMap, order: seq<CellId>): seq<Line>
    requires forall id :: id in order ==> id in overlay
  {
    OverlapLines(Overlaps(FindingsIn(overlay, order), VNetNames(fx.vnets)))
  }

  function ExposureLinesOf(fx: Fixture, level: Level, overlay: OverlayMap): seq<Line> {
    if DrawsInternet(fx) then ExposureLines(fx.nics, level, overlay, Ids(Placed(fx, level, overlay, StubsOf(fx)))) else []
  }

  function AppLinesOf(fx: Fixture, level: Level, overlay: OverlayMap): seq<Line> {
    AppLines(AppItems(fx), DrawsInternet(fx), Ids(Placed(fx, level, overlay, StubsOf(fx))))
  }

  function Lines(fx: Fixture, level: Level, overlay: OverlayMap, order: seq<CellId>): seq<Line>
    requires forall id :: id in order ==> id in overlay
  {
    PeerLines(Peered(Links(fx)), VNetNames(fx.vnets))
    + OverlapLinesOf(fx, overlay, order)
    + ExposureLinesOf(fx, level, overlay)
    + HubLines(fx)
    + AppLinesOf(fx, level, overlay)
  }

  /** Lines get their ids from one counter, starting at 1. */
  function Numbered(lines: seq<Line>): seq<Connector> {
    seq(|lines|, i requires 0 <= i < |lines| => Connector(Edge(lines[i].prefix, i + 1), lines[i].source, lines[i].target))
  }

  // ---------------------------------------------------------------- one line for every peered pair

  /** Two pairs have the same key exactly when they name the same two ends. */
  lemma KeyIsUnordered(p: Pair, q: Pair)
    ensures Key(p) == Key(q) <==> p == q || p == Pair(q.b, q.a)
  {
    StringLeTotal(p.a, p.b);
    StringLeTotal(q.a, q.b);
    if StringLe(p.a, p.b) && StringLe(p.b, p.a) {
      StringLeAntisymmetric(p.a, p.b);
    }
  }

  ghost predicate Peers(links: seq<Link>, k: Pair) {
    exists l :: l in links && Ends(l).Some? && Key(Ends(l).value) == k
  }

  lemma {:induction false} PeeredKeys(links: seq<Link>, k: Pair)
    ensures k in Keys(Peered(links)) <==> Peers(links, k)
    ensures KeysDistinct(Key, Peered(links))
    ensures forall p :: p in Peered(links) ==> p.a != p.b && exists l :: l in links && Ends(l) == Some(p)
  {
    if |links| > 0 {
      var init, last := links[..|links| - 1], links[|links| - 1];
      assert links == init + [last];
      PeeredKeys(init, k);
      var before, all := Peered(init), Peered(links);
      if Ends(last).Some? && Key(Ends(last).value) in Keys(before) {
        PeeredKeys(init, Key(Ends(last).value));
      }
      if Peers(init, k) {
        var l :| l in init && Ends(l).Some? && Key(Ends(l).value) == k;
        assert l in links;
      }
      assert last in links;
      if all != before {
        forall i | 0 <= i < |before| ensures Key(before[i]) != Key(Ends(last).value) {
          assert before[i] in before;
        }
        assert Ends(last).value in all;
        assert Keys(all) == Keys(before) + {Key(Ends(last).value)};
      }
      forall p | p in all ensures p.a != p.b && exists l :: l in links && Ends(l) == Some(p) {
        if p in before {
          var l :| l in init && Ends(l) == Some(p);
          assert l in links;
        }
      }
    }
  }

  ghost predicate Joins(l: Line, x: CellId, y: CellId) {
    (l.source == x && l.target == y) || (l.source == y && l.target == x)
  }

  lemma EndIdIsInjective(a: string, b: string, names: set<string>)
    ensures EndId(a, names) == EndId(b, names) <==> a == b
  {
  }

  lemma PeerLineJoins(p: Pair, q: Pair, names: set<string>)
    ensures Joins(PeerLine(p, names), EndId(q.a, names), EndId(q.b, names)) <==> Key(p) == Key(q)
  {
    KeyIsUnordered(p, q);
    EndIdIsInjective(p.a, q.a, names);
    EndIdIsInjective(p.a, q.b, names);
    EndIdIsInjective(p.b, q.a, names);
    EndIdIsInjective(p.b, q.b, names);
  }

  /** Two VNets are joined by a peering line exactly when some peering names both, in either direction. */
  lemma PeeringsAreLines(links: seq<Link>, names: set<string>, q: Pair)
    ensures (exists i :: 0 <= i < |Peered(links)|
                         && Joins(PeerLines(Peered(links), names)[i], EndId(q.a, names), EndId(q.b, names)))
       <==> Peers(links, Key(q))
  {
    var ps := Peered(links);
    PeeredKeys(links, Key(q));
    forall i | 0 <= i < |ps|
      ensures Joins(PeerLines(ps, names)[i], EndId(q.a, names), EndId(q.b, names)) <==> Key(ps[i]) == Key(q)
    {
      PeerLineJoins(ps[i], q, names);
    }
    if Key(q) in Keys(ps) {
      var p :| p in ps && Key(p) == Key(q);
      var i :| 0 <= i < |ps| && ps[i] == p;
      assert Joins(PeerLines(ps, names)[i], EndId(q.a, names), EndId(q.b, names));
    }
  }

  /** No peering is drawn twice, in either direction, and none joins a VNet to itself. */
  lemma PeeringsAreDrawnOnce(links: seq<Link>, names: set<string>, i: nat, j: nat)
    requires i < |Peered(links)| && j < |Peered(links)|
    ensures var lines := PeerLines(Peered(links), names);
            && lines[i].source != lines[i].target
            && (Joins(lines[i], lines[j].source, lines[j].target) <==> i == j)
  {
    var ps := Peered(links);
    PeeredKeys(links, ps[i]);
    assert ps[i] in ps;
    EndIdIsInjective(ps[i].a, ps[i].b, names);
    PeerLineJoins(ps[i], ps[j], names);
    if i < j {
      assert Key(ps[i]) != Key(ps[j]);
    } else if j < i {
      assert Key(ps[j]) != Key(ps[i]);
    }
  }

  // ---------------------------------------------------------------- stubs

  lemma AddStubKeeps(stubs: seq<string>, name: string, names: set<string>)
    requires Distinct(stubs)
    ensures Distinct(AddStub(stubs, name, names))
    ensures forall s :: s in AddStub(stubs, name, names) <==> s in stubs || (s == name && name !in names)
  {
    if name !in stubs && name !in names {
      var more := stubs + [name];
      forall i, j | 0 <= i < j < |more| ensures more[i] != more[j] {
        if j == |stubs| {
          assert stubs[i] in stubs;
        }
      }
    }
  }

  /** The stubs are exactly the ends of peerings that lie outside the fixture, each once. */
  lemma {:induction false} StubsAreOutsiders(ps: seq<Pair>, names: set<string>)
    ensures Distinct(Stubs(ps, names))
    ensures forall s :: s in Stubs(ps, names) <==> s !in names && exists p :: p in ps && (p.a == s || p.b == s)
  {
    if |ps| > 0 {
      var init, last := ps[..|ps| - 1], ps[|ps| - 1];
      assert ps == init + [last];
      StubsAreOutsiders(init, names);
      var before := Stubs(init, names);
      AddStubKeeps(before, last.a, names);
      AddStubKeeps(AddStub(before, last.a, names), last.b, names);
      forall s ensures s in Stubs(ps, names) <==> s !in names && exists p :: p in ps && (p.a == s || p.b == s) {
        assert s in Stubs(ps, names) <==> s in before || (s !in names && (s == last.a || s == last.b));
        if s in before {
          var p :| p in init && (p.a == s || p.b == s);
          assert p in ps;
        } else if s == last.a || s == last.b {
          assert last in ps;
        }
      }
    }
  }

  // ---------------------------------------------------------------- one line for every overlapping pair

  /** The finding is about an overlap of the two VNets of `q`, and both are drawn. */
  ghost predicate OverlapOf(f: Finding, names: set<string>, q: Pair) {
    f.kind.CidrOverlap? && OverlapPair(f).a in names && OverlapPair(f).b in names && Key(OverlapPair(f)) == Key(q)
  }

  ghost predicate OverlapFound(fs: seq<Finding>, names: set<string>, q: Pair) {
    exists f :: f in fs && OverlapOf(f, names, q)
  }

  lemma {:induction false} OverlapKeys(fs: seq<Finding>, names: set<string>, q: Pair)
    ensures Key(q) in Keys(Overlaps(fs, names)) <==> OverlapFound(fs, names, q)
    ensures KeysDistinct(Key, Overlaps(fs, names))
    ensures forall p :: p in Overlaps(fs, names) ==> p.a in names && p.b in names
  {
    if |fs| > 0 {
      var init, last := fs[..|fs| - 1], fs[|fs| - 1];
      assert fs == init + [last];
      OverlapKeys(init, names, q);
      var before, all, p := Overlaps(init, names), Overlaps(fs, names), OverlapPair(last);
      if Key(p) in Keys(before) {
        OverlapKeys(init, names, p);
      }
      if OverlapFound(init, names, q) {
        var f :| f in init && OverlapOf(f, names, q);
        assert f in fs;
      }
      assert last in fs;
      if all != before {
        forall i | 0 <= i < |before| ensures Key(before[i]) != Key(p) {
          assert before[i] in before;
        }
        assert p in all;
        assert Keys(all) == Keys(before) + {Key(p)};
      }
    }
  }

  lemma {:induction false} FindingsInMembers(overlay: OverlayMap, order: seq<CellId>, f: Finding)
    requires forall id :: id in order ==> id in overlay
    ensures f in FindingsIn(overlay, order) <==> exists id :: id in order && f in overlay[id].findings
  {
    if |order| > 0 {
      var init, last := order[..|order| - 1], order[|order| - 1];
      assert order == init + [last];
      FindingsInMembers(overlay, init, f);
    }
  }

  /** In any order that visits every entry, the findings met are the findings computed, but for those without a cell. */
  lemma FindingsMet(overlay: OverlayMap, order: seq<CellId>, findings: seq<Finding>, f: Finding)
    requires Computed(overlay, findings) && forall id :: id in order <==> id in overlay
    ensures f in FindingsIn(overlay, order) <==> f in findings && NodeIds(f) != []
  {
    FindingsInMembers(overlay, order, f);
    if f in FindingsIn(overlay, order) {
      var id :| id in order && f in overlay[id].findings;
      FiledUnder(overlay, findings, f, id);
    } else if f in findings && NodeIds(f) != [] {
      FiledUnder(overlay, findings, f, NodeIds(f)[0]);
    }
  }

  lemma OverlapFoundMet(overlay: OverlayMap, order: seq<CellId>, findings: seq<Finding>, names: set<string>, q: Pair)
    requires Computed(overlay, findings) && forall id :: id in order <==> id in overlay
    ensures OverlapFound(FindingsIn(overlay, order), names, q) <==> OverlapFound(findings, names, q)
  {
    forall f | OverlapOf(f, names, q) ensures f in FindingsIn(overlay, order) <==> f in findings {
      FindingsMet(overlay, order, findings, f);
    }
  }

  lemma OverlapLineJoins(p: Pair, q: Pair)
    ensures Joins(OverlapLine(p), Node(Vnet, q.a), Node(Vnet, q.b)) <==> Key(p) == Key(q)
  {
    KeyIsUnordered(p, q);
  }

  /** Two VNets are joined by an overlap line exactly when both are drawn and some finding names the two, in
      whatever order the overlay's entries are visited. */
  lemma OverlapsAreLines(fx: Fixture, overlay: OverlayMap, order: seq<CellId>, findings: seq<Finding>, q: Pair)
    requires Computed(overlay, findings) && forall id :: id in order <==> id in overlay
    ensures (exists l :: l in OverlapLinesOf(fx, overlay, order) && Joins(l, Node(Vnet, q.a), Node(Vnet, q.b)))
       <==> OverlapFound(findings, VNetNames(fx.vnets), q)
  {
    var fs, names := FindingsIn(overlay, order), VNetNames(fx.vnets);
    var ps, lines := Overlaps(fs, names), OverlapLinesOf(fx, overlay, order);
    OverlapKeys(fs, names, q);
    OverlapFoundMet(overlay, order, findings, names, q);
    forall i | 0 <= i < |ps| ensures Joins(lines[i], Node(Vnet, q.a), Node(Vnet, q.b)) <==> Key(ps[i]) == Key(q) {
      OverlapLineJoins(ps[i], q);
    }
    if Key(q) in Keys(ps) {
      var p :| p in ps && Key(p) == Key(q);
      var i :| 0 <= i < |ps| && ps[i] == p;
      assert lines[i] in lines;
    }
  }

  /** No pair is joined by two overlap lines, in either direction. */
  lemma OverlapsAreDrawnOnce(fx: Fixture, overlay: OverlayMap, order: seq<CellId>, i: nat, j: nat)
    requires forall id :: id in order ==> id in overlay
    requires i < |OverlapLinesOf(fx, overlay, order)| && j < |OverlapLinesOf(fx, overlay, order)|
    ensures var lines := OverlapLinesOf(fx, overlay, order);
            Joins(lines[i], lines[j].source, lines[j].target) <==> i == j
  {
    var fs, names := FindingsIn(overlay, order), VNetNames(fx.vnets);
    var ps := Overlaps(fs, names);
    OverlapKeys(fs, names, ps[i]);
    OverlapLineJoins(ps[i], ps[j]);
    if i < j {
      assert Key(ps[i]) != Key(ps[j]);
    } else if j < i {
      assert Key(ps[j]) != Key(ps[i]);
    }
  }

  // ---------------------------------------------------------------- exposure

  lemma {:induction false} ExposureLineIff(nics: seq<NicDef>, level: Level, overlay: OverlayMap, drawn: set<CellId>, id: CellId)
    ensures Line(Exp, Internet, id) in ExposureLines(nics, level, overlay, drawn)
       <==> id in drawn && exists n :: n in nics && ExposureTarget(n, level) == id && Exposed(overlay, Node(Nic, n.name))
    ensures forall l :: l in ExposureLines(nics, level, overlay, drawn) ==>
              l.prefix.Exp? && l.source == Internet && l.target in drawn
  {
    if |nics| > 0 {
      var init, last := nics[..|nics| - 1], nics[|nics| - 1];
      assert nics == init + [last];
      ExposureLineIff(init, level, overlay, drawn, id);
      if Line(Exp, Internet, id) in ExposureLines(init, level, overlay, drawn) {
        var n :| n in init && ExposureTarget(n, level) == id && Exposed(overlay, Node(Nic, n.name));
        assert n in nics;
      }
      assert last in nics;
    }
  }

  /** A cell gets a line from the internet exactly when the internet is drawn, the cell is placed above the
      application band, and a NIC it stands for carries an exposing finding under its bare name. */
  lemma ExposureIffFound(fx: Fixture, level: Level, overlay: OverlayMap, id: CellId)
    ensures Line(Exp, Internet, id) in ExposureLinesOf(fx, level, overlay)
       <==> && DrawsInternet(fx) && IsPlaced(fx, level, StubsOf(fx), id)
            && exists n :: n in fx.nics && ExposureTarget(n, level) == id && Exposed(overlay, Node(Nic, n.name))
  {
    WhatIsPlaced(fx, level, overlay, StubsOf(fx), id);
    ExposureLineIff(fx.nics, level, overlay, Ids(Placed(fx, level, overlay, StubsOf(fx))), id);
  }

  // ---------------------------------------------------------------- every end is drawn

  ghost predicate DrawnOn(fx: Fixture, level: Level, overlay: OverlayMap, id: CellId) {
    id in Ids(Cells(fx, level, overlay, StubsOf(fx)))
  }

  ghost predicate LineDrawn(fx: Fixture, level: Level, overlay: OverlayMap, l: Line) {
    DrawnOn(fx, level, overlay, l.source) && DrawnOn(fx, level, overlay, l.target)
  }

  lemma DrawnIff(fx: Fixture, level: Level, overlay: OverlayMap, id: CellId)
    ensures DrawnOn(fx, level, overlay, id) <==> Belongs(fx, level, StubsOf(fx), id)
  {
    WhatIsDrawn(fx, level, overlay, StubsOf(fx), id);
  }

  lemma VNetBelongs(fx: Fixture, level: Level, stubs: seq<string>, name: string)
    requires name in VNetNames(fx.vnets)
    ensures Belongs(fx, level, stubs, Node(Vnet, name))
  {
    assert HasVNet(fx, name);
  }

  lemma VNetIsDrawn(fx: Fixture, level: Level, overlay: OverlayMap, name: string)
    requires name in VNetNames(fx.vnets)
    ensures DrawnOn(fx, level, overlay, Node(Vnet, name))
  {
    VNetBelongs(fx, level, StubsOf(fx), name);
    DrawnIff(fx, level, overlay, Node(Vnet, name));
  }

  lemma StubBelongs(fx: Fixture, level: Level, stubs: seq<string>, name: string)
    requires name in stubs
    ensures Belongs(fx, level, stubs, Node(Ext, name))
  {
  }

  lemma StubIsDrawn(fx: Fixture, level: Level, overlay: OverlayMap, name: string)
    requires name in StubsOf(fx)
    ensures DrawnOn(fx, level, overlay, Node(Ext, name))
  {
    StubBelongs(fx, level, StubsOf(fx), name);
    DrawnIff(fx, level, overlay, Node(Ext, name));
  }

  lemma InternetIsDrawn(fx: Fixture, level: Level, overlay: OverlayMap)
    requires DrawsInternet(fx)
    ensures DrawnOn(fx, level, overlay, Internet)
  {
    DrawnIff(fx, level, overlay, Internet);
  }

  lemma PlacedIsDrawn(fx: Fixture, level: Level, overlay: OverlayMap, id: CellId)
    requires id in Ids(Placed(fx, level, overlay, StubsOf(fx)))
    ensures DrawnOn(fx, level, overlay, id)
  {
    WhatIsPlaced(fx, level, overlay, StubsOf(fx), id);
    BelongsInParts(fx, level, StubsOf(fx), id);
    DrawnIff(fx, level, overlay, id);
  }

  lemma EndIsDrawn(fx: Fixture, level: Level, overlay: OverlayMap, p: Pair, name: string)
    requires p in Peered(Links(fx)) && (name == p.a || name == p.b)
    ensures DrawnOn(fx, level, overlay, EndId(name, VNetNames(fx.vnets)))
  {
    var names := VNetNames(fx.vnets);
    if name in names {
      VNetIsDrawn(fx, level, overlay, name);
    } else {
      StubsAreOutsiders(Peered(Links(fx)), names);
      StubIsDrawn(fx, level, overlay, name);
    }
  }

  lemma PeerLinesDrawn(fx: Fixture, level: Level, overlay: OverlayMap)
    ensures forall l :: l in PeerLines(Peered(Links(fx)), VNetNames(fx.vnets)) ==> LineDrawn(fx, level, overlay, l)
  {
    var ps := Peered(Links(fx));
    forall l | l in PeerLines(ps, VNetNames(fx.vnets)) ensures LineDrawn(fx, level, overlay, l) {
      var i :| 0 <= i < |ps| && l == PeerLine(ps[i], VNetNames(fx.vnets));
      EndIsDrawn(fx, level, overlay, ps[i], ps[i].a);
      EndIsDrawn(fx, level, overlay, ps[i], ps[i].b);
    }
  }

  lemma OverlapLinesDrawn(fx: Fixture, level: Level, overlay: OverlayMap, order: seq<CellId>)
    requires forall id :: id in order ==> id in overlay
    ensures forall l :: l in OverlapLinesOf(fx, overlay, order) ==> LineDrawn(fx, level, overlay, l)
  {
    var fs, names := FindingsIn(overlay, order), VNetNames(fx.vnets);
    var ps := Overlaps(fs, names);
    OverlapKeys(fs, names, Pair("", ""));
    forall l | l in OverlapLines(ps) ensures LineDrawn(fx, level, overlay, l) {
      var i :| 0 <= i < |ps| && l == OverlapLine(ps[i]);
      assert ps[i] in ps;
      VNetIsDrawn(fx, level, overlay, ps[i].a);
      VNetIsDrawn(fx, level, overlay, ps[i].b);
    }
  }

  lemma ExposureLinesDrawn(fx: Fixture, level: Level, overlay: OverlayMap)
    ensures forall l :: l in ExposureLinesOf(fx, level, overlay) ==> LineDrawn(fx, level, overlay, l)
  {
    var drawn := Ids(Placed(fx, level, overlay, StubsOf(fx)));
    ExposureLineIff(fx.nics, level, overlay, drawn, Root);
    forall l | l in ExposureLinesOf(fx, level, overlay) ensures LineDrawn(fx, level, overlay, l) {
      PlacedIsDrawn(fx, level, overlay, l.target);
      InternetIsDrawn(fx, level, overlay);
    }
  }

  lemma HubIsDrawn(fx: Fixture, level: Level, overlay: OverlayMap)
    requires |fx.vnets| > 0
    ensures DrawnOn(fx, level, overlay, Node(Vnet, Ordered(fx.vnets)[0].name))
  {
    SameElements(fx.vnets, Ordered(fx.vnets));
    assert Ordered(fx.vnets)[0] in fx.vnets;
    VNetIsDrawn(fx, level, overlay, Ordered(fx.vnets)[0].name);
  }

  lemma ApplianceIsDrawn(fx: Fixture, level: Level, overlay: OverlayMap, id: CellId)
    requires OnBoundary(fx, id)
    ensures DrawnOn(fx, level, overlay, id)
  {
    BelongsInParts(fx, level, StubsOf(fx), id);
    DrawnIff(fx, level, overlay, id);
  }

  lemma GatewayLinesEnds(names: seq<string>, hub: string)
    ensures forall l :: l in GatewayLines(names, hub) ==>
              l.source.Node? && l.source.kind.Gw? && l.source.name in names && l.target == Node(Vnet, hub)
  {
  }

  lemma HubLinesDrawn(fx: Fixture, level: Level, overlay: OverlayMap)
    ensures forall l :: l in HubLines(fx) ==> LineDrawn(fx, level, overlay, l)
  {
    if |fx.vnets| > 0 {
      HubIsDrawn(fx, level, overlay);
      HubLinesEnds(fx);
      forall l | l in HubLines(fx) ensures LineDrawn(fx, level, overlay, l) {
        ApplianceIsDrawn(fx, level, overlay, l.source);
      }
    }
  }

  lemma HubLinesEnds(fx: Fixture)
    requires |fx.vnets| > 0
    ensures forall l :: l in HubLines(fx) ==> OnBoundary(fx, l.source) && l.target == Node(Vnet, Ordered(fx.vnets)[0].name)
  {
    GatewayLinesEnds(fx.gateways, Ordered(fx.vnets)[0].name);
  }

  lemma {:induction false} AppLinesEnds(items: seq<AppItem>, internet: bool, drawn: set<CellId>)
    ensures forall l :: l in AppLines(items, internet, drawn) <==>
              exists a :: a in items && AppLine(a, internet, drawn) == Some(l)
  {
    if |items| > 0 {
      var init, last := items[..|items| - 1], items[|items| - 1];
      assert items == init + [last];
      AppLinesEnds(init, internet, drawn);
      forall l ensures l in AppLines(items, internet, drawn) <==>
                       exists a :: a in items && AppLine(a, internet, drawn) == Some(l)
      {
        if l in AppLines(init, internet, drawn) {
          var a :| a in init && AppLine(a, internet, drawn) == Some(l);
          assert a in items;
        } else if AppLine(last, internet, drawn) == Some(l) {
          assert last in items;
        }
      }
    }
  }

  lemma AppItemIsDrawn(fx: Fixture, level: Level, overlay: OverlayMap, a: AppItem)
    requires a in AppItems(fx)
    ensures DrawnOn(fx, level, overlay, AppId(a))
  {
    BelongsInParts(fx, level, StubsOf(fx), AppId(a));
    DrawnIff(fx, level, overlay, AppId(a));
  }

  lemma AppLineDrawn(fx: Fixture, level: Level, overlay: OverlayMap, a: AppItem)
    requires a in AppItems(fx)
    requires AppLine(a, DrawsInternet(fx), Ids(Placed(fx, level, overlay, StubsOf(fx)))).Some?
    ensures LineDrawn(fx, level, overlay, AppLine(a, DrawsInternet(fx), Ids(Placed(fx, level, overlay, StubsOf(fx)))).value)
  {
    AppItemIsDrawn(fx, level, overlay, a);
    if a.isEdge && DrawsInternet(fx) {
      InternetIsDrawn(fx, level, overlay);
    } else {
      PlacedIsDrawn(fx, level, overlay, Node(Vnet, BeforeSlash(a.subnet.value)));
    }
  }

  lemma AppLinesDrawn(fx: Fixture, level: Level, overlay: OverlayMap)
    ensures forall l :: l in AppLinesOf(fx, level, overlay) ==> LineDrawn(fx, level, overlay, l)
  {
    var drawn := Ids(Placed(fx, level, overlay, StubsOf(fx)));
    AppLinesEnds(AppItems(fx), DrawsInternet(fx), drawn);
    forall l | l in AppLinesOf(fx, level, overlay) ensures LineDrawn(fx, level, overlay, l) {
      var a :| a in AppItems(fx) && AppLine(a, DrawsInternet(fx), drawn) == Some(l);
      AppLineDrawn(fx, level, overlay, a);
    }
  }

  /** No line dangles, even in a badly named fixture. */
  lemma NoLineDangles(fx: Fixture, level: Level, overlay: OverlayMap, order: seq<CellId>, l: Line)
    requires forall id :: id in order ==> id in overlay
    requires l in Lines(fx, level, overlay, order)
    ensures LineDrawn(fx, level, overlay, l)
  {
    PeerLinesDrawn(fx, level, overlay);
    OverlapLinesDrawn(fx, level, overlay, order);
    ExposureLinesDrawn(fx, level, overlay);
    HubLinesDrawn(fx, level, overlay);
    AppLinesDrawn(fx, level, overlay);
  }

  // ---------------------------------------------------------------- when exposure lines follow the overlay

  /** Every drawn NIC has a line from the internet exactly when its cell carries an exposing finding. */
  ghost predicate LinesFollow(fx: Fixture, overlay: OverlayMap) {
    forall n :: n in fx.nics && HasSubnet(fx, n.subnet) ==>
      (Line(Exp, Internet, Node(Nic, NicRid(n))) in ExposureLinesOf(fx, Mld, overlay)
       <==> Exposed(overlay, Node(Nic, NicRid(n))))
  }

  /** The internet is drawn if any NIC is, and a drawn NIC's cell is known by the bare name alone. */
  ghost predicate KnownByName(fx: Fixture) {
    forall n, m :: n in fx.nics && m in fx.nics && HasSubnet(fx, n.subnet) && NicRid(m) == NicRid(n) ==>
      DrawsInternet(fx) && m.name == NicRid(m)
  }

  lemma NicLineIff(fx: Fixture, overlay: OverlayMap, n: NicDef)
    requires n in fx.nics && HasSubnet(fx, n.subnet)
    ensures Line(Exp, Internet, Node(Nic, NicRid(n))) in ExposureLinesOf(fx, Mld, overlay)
       <==> DrawsInternet(fx)
            && exists m :: m in fx.nics && NicRid(m) == NicRid(n) && Exposed(overlay, Node(Nic, m.name))
  {
    var id := Node(Nic, NicRid(n));
    NicIsPlaced(fx, StubsOf(fx), n);
    ExposureIffFound(fx, Mld, overlay, id);
    assert forall m :: ExposureTarget(m, Mld) == id <==> NicRid(m) == NicRid(n);
  }

  lemma NicIsPlaced(fx: Fixture, stubs: seq<string>, n: NicDef)
    requires n in fx.nics && HasSubnet(fx, n.subnet)
    ensures IsPlaced(fx, Mld, stubs, Node(Nic, NicRid(n)))
  {
    assert HasNic(fx, NicRid(n));
  }

  lemma OneFinding(name: string) returns (findings: seq<Finding>, overlay: OverlayMap)
    ensures Computed(overlay, findings)
    ensures forall id :: Exposed(overlay, id) <==> id == Node(Nic, name)
  {
    var f, at := Finding(LoadBalancerNat, High, name, true), Node(Nic, name);
    findings, overlay := [f], map[at := EntryOf([f])];
    forall id ensures OverlayAt(overlay, id, Painting(findings, id)) {
      PaintingOfOne(f, at, id);
    }
    assert f in overlay[at].findings;
  }

  lemma LinesMiss(fx: Fixture, n: NicDef, m: NicDef) returns (findings: seq<Finding>, overlay: OverlayMap)
    requires n in fx.nics && m in fx.nics && HasSubnet(fx, n.subnet) && NicRid(m) == NicRid(n)
    requires !(DrawsInternet(fx) && m.name == NicRid(m))
    ensures Computed(overlay, findings) && !LinesFollow(fx, overlay)
  {
    findings, overlay := OneFinding(if DrawsInternet(fx) then m.name else NicRid(n));
    NicLineIff(fx, overlay, n);
  }

  /** The lines follow every overlay that findings can give exactly when the internet is drawn and no drawn NIC
      has an id apart from its name. */
  lemma ExposureFollowsOverlay(fx: Fixture)
    ensures (forall findings, overlay :: Computed(overlay, findings) ==> LinesFollow(fx, overlay)) <==> KnownByName(fx)
  {
    if KnownByName(fx) {
      forall findings, overlay | Computed(overlay, findings) ensures LinesFollow(fx, overlay) {
        forall n | n in fx.nics && HasSubnet(fx, n.subnet)
          ensures Line(Exp, Internet, Node(Nic, NicRid(n))) in ExposureLinesOf(fx, Mld, overlay)
             <==> Exposed(overlay, Node(Nic, NicRid(n)))
        {
          NicLineIff(fx, overlay, n);
        }
      }
    } else {
      var n, m :| n in fx.nics && m in fx.nics && HasSubnet(fx, n.subnet) && NicRid(m) == NicRid(n)
                  && !(DrawsInternet(fx) && m.name == NicRid(m));
      var findings, overlay := LinesMiss(fx, n, m);
    }
  }

  // ---------------------------------------------------------------- two exposed NICs without a line

  const WEB := NicDef(Some("/nics/web"), "web", "hub/front", true)
  const OPEN_PORT := Finding(NsgReachable, High, "/nics/web", true)
  const BACKEND := NicDef(None, "web", "hub/front", false)
  const FORWARDED := Finding(LoadBalancerNat, High, "web", true)

  lemma WebNames()
    ensures NicRid(WEB) == "/nics/web" && "/nics/web" != "web" && WEB.subnet == SubnetKey("hub", "front")
  {
    assert |"/nics/web"| == 9 && |"web"| == 3;
  }

  /** A drawn NIC with a resource id of its own carries an exposing finding, and no line reaches it. */
  lemma ExposureCanBeMissed(fx: Fixture, overlay: OverlayMap)
    requires fx.vnets == [VNet("hub", [], ["front"])] && fx.nics == [WEB] && Computed(overlay, [OPEN_PORT])
    ensures Exposed(overlay, Node(Nic, NicRid(WEB))) && DrawnOn(fx, Mld, overlay, Node(Nic, NicRid(WEB)))
    ensures DrawsInternet(fx) && ExposureLinesOf(fx, Mld, overlay) == []
  {
    WebNames();
    var id, bare := Node(Nic, "/nics/web"), Node(Nic, "web");
    ExposedByOne(overlay, OPEN_PORT, id);
    PaintingOfOne(OPEN_PORT, id, bare);
    assert OverlayAt(overlay, bare, Painting([OPEN_PORT], bare));
    OnlyNicIsDrawn(fx, overlay, WEB);
    NoExposureLine(fx.nics, WEB, overlay, Ids(Placed(fx, Mld, overlay, StubsOf(fx))));
  }

  /** A drawn NIC reachable through a load balancer alone carries an exposing finding under its own name, and
      no line reaches it, because the internet is not drawn. */
  lemma ExposureWithoutInternet(fx: Fixture, overlay: OverlayMap)
    requires fx.vnets == [VNet("hub", [], ["front"])] && fx.nics == [BACKEND] && fx.firewall == None
    requires Computed(overlay, [FORWARDED])
    ensures NicRid(BACKEND) == BACKEND.name
    ensures Exposed(overlay, Node(Nic, NicRid(BACKEND))) && DrawnOn(fx, Mld, overlay, Node(Nic, NicRid(BACKEND)))
    ensures !DrawsInternet(fx) && ExposureLinesOf(fx, Mld, overlay) == []
  {
    WebNames();
    ExposedByOne(overlay, FORWARDED, Node(Nic, "web"));
    OnlyNicIsDrawn(fx, overlay, BACKEND);
  }

  lemma ExposedByOne(overlay: OverlayMap, f: Finding, id: CellId)
    requires Computed(overlay, [f]) && NodeIds(f) == [id] && Exposing(f)
    ensures Exposed(overlay, id)
  {
    PaintingOfOne(f, id, id);
    assert OverlayAt(overlay, id, Painting([f], id));
    assert f in overlay[id].findings;
  }

  lemma NicIsDrawn(fx: Fixture, overlay: OverlayMap, name: string)
    requires HasNic(fx, name)
    ensures DrawnOn(fx, Mld, overlay, Node(Nic, name))
  {
    NicBelongs(fx, StubsOf(fx), name);
    DrawnIff(fx, Mld, overlay, Node(Nic, name));
  }

  lemma NicBelongs(fx: Fixture, stubs: seq<string>, name: string)
    requires HasNic(fx, name)
    ensures Belongs(fx, Mld, stubs, Node(Nic, name))
  {
  }

  lemma OnlyNicIsDrawn(fx: Fixture, overlay: OverlayMap, n: NicDef)
    requires fx.vnets == [VNet("hub", [], ["front"])] && fx.nics == [n] && n.subnet == SubnetKey("hub", "front")
    ensures DrawnOn(fx, Mld, overlay, Node(Nic, NicRid(n)))
    ensures DrawsInternet(fx) <==> n.hasPublicIp || fx.firewall.Some?
  {
    var v := fx.vnets[0];
    assert v in fx.vnets && v.subnets[0] in v.subnets;
    assert HasSubnet(fx, n.subnet);
    assert n in fx.nics && HasNic(fx, NicRid(n));
    NicIsDrawn(fx, overlay, NicRid(n));
  }

  lemma NoExposureLine(nics: seq<NicDef>, n: NicDef, overlay: OverlayMap, drawn: set<CellId>)
    requires nics == [n] && Node(Nic, n.name) !in overlay
    ensures ExposureLines(nics, Mld, overlay, drawn) == []
  {
    assert nics[..0] == [];
  }

  // ---------------------------------------------------------------- ids

  lemma OtherText(a: CellId, b: CellId)
    ensures a != b ==> Text(a) != Text(b)
  {
    if Text(a) == Text(b) {
      TextIsInjective(a, b);
    }
  }

  lemma NoLineAmongCells(fx: Fixture, level: Level, overlay: OverlayMap, stubs: seq<string>, c: Cell)
    requires c in Cells(fx, level, overlay, stubs)
    ensures !c.id.Edge?
  {
    WhatIsDrawn(fx, level, overlay, stubs, c.id);
  }

  /** Line ids differ from one another and from every cell's id, also as written in the file. */
  lemma LineIdsAreFresh(lines: seq<Line>, fx: Fixture, level: Level, overlay: OverlayMap, stubs: seq<string>, i: nat)
    requires i < |lines|
    ensures forall j :: 0 <= j < |lines| && Text(Numbered(lines)[j].id) == Text(Numbered(lines)[i].id) ==> j == i
    ensures forall c :: c in Cells(fx, level, overlay, stubs) ==> Text(c.id) != Text(Numbered(lines)[i].id)
  {
    var id := Numbered(lines)[i].id;
    forall j | 0 <= j < |lines| && Text(Numbered(lines)[j].id) == Text(id) ensures j == i {
      OtherText(Numbered(lines)[j].id, id);
    }
    forall c | c in Cells(fx, level, overlay, stubs) ensures Text(c.id) != Text(id) {
      NoLineAmongCells(fx, level, overlay, stubs, c);
      OtherText(c.id, id);
    }
  }
}
