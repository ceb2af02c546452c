/** The severity overlay: findings joined onto the cells that show them. */
module Overlay {
  import opened Prelude
  import opened Ordering
  import opened CellIds

  datatype Severity = Clean | Informational | Low | Medium | High | Critical | Unranked(text: string)

  function Rank(s: Severity): nat {
    match s
    case Critical => 5
    case High => 4
    case Medium => 3
    case Low => 2
    case Informational => 1
    case _ => 0
  }

  datatype FindingKind =
    | OrphanedEndpoint | CidrOverlap
    | NsgReachable | NsgLatent | MissingSegmentation | AnalysisIncomplete | BastionBypass | LoadBalancerNat
    | AppGwWafDisabled | AppGwWafDetection | AksNotPrivate | ApimNoVnet | ApimExternalNoWaf
    | FrontDoorWafDisabled | FrontDoorWafDetection | VhubNoFirewall | VhubBypass | DnsZoneMissing | DnsZoneUnlinked
    | CrossSubPeering | UnknownKind(text: string)

  datatype Finding = Finding(kind: FindingKind, severity: Severity, resource: string, reachable: bool)

  /** The two VNet names of a CIDR-overlap resource, split at the first tilde. */
  function SplitPair(r: string): (string, string) {
    FirstWithin('~', r);
    var i := First('~', r);
    if i < |r| then (r[..i], r[i + 1..]) else (r, "")
  }

  /** The cells a finding paints. */
  function NodeIds(f: Finding): seq<CellId> {
    match f.kind
    case OrphanedEndpoint => [Node(Pip, f.resource)]
    case CidrOverlap => var p := SplitPair(f.resource); [Node(Vnet, p.0), Node(Vnet, p.1)]
    case AppGwWafDisabled => [Node(AppGw, f.resource)]
    case AppGwWafDetection => [Node(AppGw, f.resource)]
    case AksNotPrivate => [Node(Aks, f.resource)]
    case ApimNoVnet => [Node(Apim, f.resource)]
    case ApimExternalNoWaf => [Node(Apim, f.resource)]
    case FrontDoorWafDisabled => [Node(Fd, f.resource)]
    case FrontDoorWafDetection => [Node(Fd, f.resource)]
    case VhubNoFirewall => [Node(Vhub, f.resource)]
    case VhubBypass => [Node(Vhub, f.resource)]
    case DnsZoneMissing => [Node(Pe, f.resource)]
    case DnsZoneUnlinked => [Node(Pe, f.resource)]
    case CrossSubPeering => []
    case _ => [Node(Nic, f.resource)]
  }

  datatype Entry = Entry(severity: Severity, findings: seq<Finding>)

  type OverlayMap = map<CellId, Entry>

  function SeverityOf(overlay: OverlayMap, id: CellId): Severity {
    if id in overlay then overlay[id].severity else Clean
  }

  function Worse(a: Severity, b: Severity): Severity {
    if Rank(b) > Rank(a) then b else a
  }

  /** The worst severity of a list of findings; Clean when none ranks. */
  function Worst(fs: seq<Finding>): Severity {
    if |fs| == 0 then Clean else Worse(Worst(fs[..|fs| - 1]), fs[|fs| - 1].severity)
  }

  /** The findings painting `id`, in order, one for each time they name it. */
  function Painting(fs: seq<Finding>, id: CellId): seq<Finding> {
    if |fs| == 0 then []
    else Painting(fs[..|fs| - 1], id) + Paints(fs[|fs| - 1], NodeIds(fs[|fs| - 1]), id)
  }

  function Paints(f: Finding, ids: seq<CellId>, id: CellId): seq<Finding> {
    if |ids| == 0 then []
    else
      var before := Paints(f, ids[..|ids| - 1], id);
      if ids[|ids| - 1] == id then before + [f] else before
  }

  function EntryOf(fs: seq<Finding>): Entry {
    Entry(Worst(fs), fs)
  }

  /** The overlay has an entry for exactly the cells some finding paints, and it is theirs. */
  ghost predicate OverlayAt(overlay: OverlayMap, id: CellId, fs: seq<Finding>) {
    (id in overlay <==> fs != []) && (id in overlay ==> overlay[id] == EntryOf(fs))
  }

  /** The overlay that the findings give. */
  ghost predicate Computed(overlay: OverlayMap, findings: seq<Finding>) {
    forall id :: OverlayAt(overlay, id, Painting(findings, id))
  }

  function AddTo(overlay: OverlayMap, id: CellId, f: Finding): OverlayMap {
    var e := if id in overlay then overlay[id] else Entry(Clean, []);
    overlay[id := Entry(Worse(e.severity, f.severity), e.findings + [f])]
  }

  lemma AddKeeps(overlay: OverlayMap, id: CellId, f: Finding, x: CellId, fs: seq<Finding>)
    requires OverlayAt(overlay, x, fs)
    ensures OverlayAt(AddTo(overlay, id, f), x, if x == id then fs + [f] else fs)
  {
    if x == id {
      assert (if id in overlay then overlay[id] else Entry(Clean, [])) == EntryOf(fs);
      WorstOneMore(fs, f);
      assert fs + [f] != [];
    } else {
      assert x in AddTo(overlay, id, f) <==> x in overlay;
    }
  }

  lemma WorstOneMore(fs: seq<Finding>, f: Finding)
    ensures Worst(fs + [f]) == Worse(Worst(fs), f.severity)
  {
    assert (fs + [f])[..|fs|] == fs;
  }

  method ComputeOverlay(findings: seq<Finding>) returns (overlay: OverlayMap)
    ensures Computed(overlay, findings)
  {
    overlay := map[];
    for i := 0 to |findings|
      invariant Computed(overlay, findings[..i])
    {
      var more := PaintFinding(overlay, findings[i], findings[..i]);
      assert findings[..i + 1][..i] == findings[..i];
      overlay := more;
    }
    assert findings[..|findings|] == findings;
  }

  method PaintFinding(overlay: OverlayMap, f: Finding, ghost before: seq<Finding>) returns (overlay': OverlayMap)
    requires Computed(overlay, before)
    ensures forall id :: OverlayAt(overlay', id, Painting(before, id) + Paints(f, NodeIds(f), id))
  {
    overlay' := overlay;
    var ids := NodeIds(f);
    NothingPainted(overlay, f, before);
    for j := 0 to |ids|
      invariant PaintedWith(overlay', f, before, ids[..j])
    {
      PaintOneMore(overlay', f, before, ids, j);
      overlay' := AddTo(overlay', ids[j], f);
    }
    assert ids[..|ids|] == ids;
  }

  ghost predicate PaintedWith(overlay: OverlayMap, f: Finding, before: seq<Finding>, ids: seq<CellId>) {
    forall id :: OverlayAt(overlay, id, Painting(before, id) + Paints(f, ids, id))
  }

  lemma NothingPainted(overlay: OverlayMap, f: Finding, before: seq<Finding>)
    requires Computed(overlay, before)
    ensures PaintedWith(overlay, f, before, [])
  {
    forall id ensures OverlayAt(overlay, id, Painting(before, id) + Paints(f, [], id)) {
      assert Painting(before, id) + Paints(f, [], id) == Painting(before, id);
    }
  }

  lemma PaintOneMore(overlay: OverlayMap, f: Finding, before: seq<Finding>, ids: seq<CellId>, j: nat)
    requires j < |ids| && PaintedWith(overlay, f, before, ids[..j])
    ensures PaintedWith(AddTo(overlay, ids[j], f), f, before, ids[..j + 1])
  {
    var more := ids[..j + 1];
    assert more[..j] == ids[..j];
    forall id ensures OverlayAt(AddTo(overlay, ids[j], f), id, Painting(before, id) + Paints(f, more, id)) {
      var fs := Painting(before, id) + Paints(f, ids[..j], id);
      AddKeeps(overlay, ids[j], f, id, fs);
      if id == ids[j] {
        assert Painting(before, id) + Paints(f, more, id) == fs + [f];
      }
    }
  }

  // ---------------------------------------------------------------- what the severity is

  /** The severity shown is the greatest rank present, and belongs to one of the findings if any ranks. */
  lemma {:induction false} WorstIsMaximum(fs: seq<Finding>)
    ensures forall f :: f in fs ==> Rank(f.severity) <= Rank(Worst(fs))
    ensures Worst(fs) == Clean || exists f :: f in fs && f.severity == Worst(fs)
    ensures Worst(fs) != Clean ==> Rank(Worst(fs)) > 0
  {
    if |fs| > 0 {
      var init, last := fs[..|fs| - 1], fs[|fs| - 1];
      WorstIsMaximum(init);
      assert fs == init + [last];
      if Worst(fs) == Worst(init) && Worst(fs) != Clean {
        var f :| f in init && f.severity == Worst(init);
        assert f in fs;
      }
    }
  }

  ghost predicate HasSeverity(fs: seq<Finding>, s: Severity) {
    exists f :: f in fs && f.severity == s
  }

  /** Critical is worst, then high, medium, low and informational; anything else shows as clean. */
  lemma WorstBySeverity(fs: seq<Finding>)
    ensures HasSeverity(fs, Critical) ==> Worst(fs) == Critical
    ensures !HasSeverity(fs, Critical) && HasSeverity(fs, High) ==> Worst(fs) == High
    ensures !HasSeverity(fs, Critical) && !HasSeverity(fs, High) && HasSeverity(fs, Medium) ==> Worst(fs) == Medium
    ensures !HasSeverity(fs, Critical) && !HasSeverity(fs, High) && !HasSeverity(fs, Medium) && HasSeverity(fs, Low) ==>
              Worst(fs) == Low
    ensures !HasSeverity(fs, Critical) && !HasSeverity(fs, High) && !HasSeverity(fs, Medium) && !HasSeverity(fs, Low) ==>
              Worst(fs) == if HasSeverity(fs, Informational) then Informational else Clean
  {
    WorstIsMaximum(fs);
    forall s | HasSeverity(fs, s) ensures Rank(s) <= Rank(Worst(fs)) {
      var f :| f in fs && f.severity == s;
    }
    assert Worst(fs) == Clean || (HasSeverity(fs, Worst(fs)) && Rank(Worst(fs)) > 0);
  }

  /** The order of the findings does not matter. */
  lemma WorstIgnoresOrder(a: seq<Finding>, b: seq<Finding>)
    requires multiset(a) == multiset(b)
    ensures Worst(a) == Worst(b)
  {
    SameElements(a, b);
    WorstIsMaximum(a);
    WorstIsMaximum(b);
    if Worst(a) != Clean {
      var f :| f in a && f.severity == Worst(a);
      assert f in b;
    }
    if Worst(b) != Clean {
      var g :| g in b && g.severity == Worst(b);
      assert g in a;
    }
  }

  lemma {:induction false} PaintingMembers(fs: seq<Finding>, id: CellId)
    ensures forall f :: f in Painting(fs, id) <==> f in fs && id in NodeIds(f)
  {
    if |fs| > 0 {
      var init, last := fs[..|fs| - 1], fs[|fs| - 1];
      PaintingMembers(init, id);
      PaintsMembers(last, NodeIds(last), id);
      assert fs == init + [last];
      assert Painting(fs, id) == Painting(init, id) + Paints(last, NodeIds(last), id);
    }
  }

  lemma {:induction false} PaintsMembers(f: Finding, ids: seq<CellId>, id: CellId)
    ensures forall g :: g in Paints(f, ids, id) <==> g == f && id in ids
  {
    if |ids| > 0 {
      PaintsMembers(f, ids[..|ids| - 1], id);
      assert ids == ids[..|ids| - 1] + [ids[|ids| - 1]];
    }
  }

  lemma PaintingOfOne(f: Finding, at: CellId, id: CellId)
    requires NodeIds(f) == [at]
    ensures Painting([f], id) == if id == at then [f] else []
  {
    assert [f][..0] == [] && [at][..0] == [];
    assert Paints(f, [at], id) == if id == at then [f] else [];
  }

  /** `r` names two VNets, joined by its first tilde; without a tilde the second is empty. */
  ghost predicate IsPair(r: string, a: string, b: string) {
    Free('~', a) && (r == a + "~" + b || (r == a && b == ""))
  }

  /** Which cell a finding is about: the interface, the unattached address, the two VNets of an overlap, or the
      application resource that it names; a peering across subscriptions is about none. */
  ghost predicate IsAbout(f: Finding, id: CellId) {
    match f.kind
    case OrphanedEndpoint => id == Node(Pip, f.resource)
    case CidrOverlap =>
      exists a, b :: IsPair(f.resource, a, b) && (id == Node(Vnet, a) || id == Node(Vnet, b))
    case CrossSubPeering => false
    case _ =>
      if f.kind in {AppGwWafDisabled, AppGwWafDetection} then id == Node(AppGw, f.resource)
      else if f.kind == AksNotPrivate then id == Node(Aks, f.resource)
      else if f.kind in {ApimNoVnet, ApimExternalNoWaf} then id == Node(Apim, f.resource)
      else if f.kind in {FrontDoorWafDisabled, FrontDoorWafDetection} then id == Node(Fd, f.resource)
      else if f.kind in {VhubNoFirewall, VhubBypass} then id == Node(Vhub, f.resource)
      else if f.kind in {DnsZoneMissing, DnsZoneUnlinked} then id == Node(Pe, f.resource)
      else id == Node(Nic, f.resource)
  }

  lemma PairIsSplit(r: string, a: string, b: string)
    requires IsPair(r, a, b)
    ensures SplitPair(r) == (a, b)
  {
    FirstWithin('~', r);
    if r == a + "~" + b {
      FirstAfter('~', a, b);
    }
  }

  lemma SplitIsPair(r: string)
    ensures IsPair(r, SplitPair(r).0, SplitPair(r).1)
  {
    FirstWithin('~', r);
    FirstSplits('~', r);
    var i := First('~', r);
    if i < |r| {
      assert r == r[..i] + "~" + r[i + 1..];
    }
  }

  lemma NodeIdsAreAbout(f: Finding, id: CellId)
    ensures id in NodeIds(f) <==> IsAbout(f, id)
  {
    if f.kind.CidrOverlap? {
      SplitIsPair(f.resource);
      forall a, b | IsPair(f.resource, a, b)
        ensures SplitPair(f.resource) == (a, b)
      {
        PairIsSplit(f.resource, a, b);
      }
    }
  }

  /** The overlay files each finding under exactly the cells that it is about. */
  lemma FiledUnder(overlay: OverlayMap, findings: seq<Finding>, f: Finding, id: CellId)
    requires Computed(overlay, findings)
    ensures id in overlay && f in overlay[id].findings <==> f in findings && id in NodeIds(f)
    ensures id in overlay && f in overlay[id].findings <==> f in findings && IsAbout(f, id)
  {
    assert OverlayAt(overlay, id, Painting(findings, id));
    PaintingMembers(findings, id);
    NodeIdsAreAbout(f, id);
  }

  /** A cell's severity is the worst of exactly the findings that name it, whatever their order. */
  lemma OverlaySeverity(overlay: OverlayMap, findings: seq<Finding>, id: CellId)
    requires OverlayAt(overlay, id, Painting(findings, id))
    ensures forall f :: f in findings && id in NodeIds(f) ==> Rank(f.severity) <= Rank(SeverityOf(overlay, id))
    ensures SeverityOf(overlay, id) == Clean
            || exists f :: f in findings && id in NodeIds(f) && f.severity == SeverityOf(overlay, id)
  {
    var fs := Painting(findings, id);
    PaintingMembers(findings, id);
    WorstIsMaximum(fs);
  }
}
