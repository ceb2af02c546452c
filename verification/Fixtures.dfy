/** The network estate a diagram is drawn from. */
module Fixtures {
  import opened Prelude
  import opened Ordering
  import opened CellIds

  datatype VNet = VNet(name: string, peerings: seq<Option<string>>, subnets: seq<string>)

  datatype NicDef = NicDef(id: Option<string>, name: string, subnet: string, hasPublicIp: bool)

  datatype PipDef = PipDef(id: Option<string>, name: string, attached: bool)

  /** An application resource with the subnet it sits in, if it says so. */
  datatype Attached = Attached(name: string, subnet: Option<string>)

  datatype Balancer = Balancer(name: string, internal: bool)

  datatype Link = Link(local: Option<string>, remote: Option<string>)

  datatype Fixture = Fixture(
    vnets: seq<VNet>, nics: seq<NicDef>, pips: seq<PipDef>,
    gateways: seq<string>, circuits: seq<string>, natGateways: seq<string>, firewall: Option<string>,
    crossPeerings: seq<Link>,
    appGateways: seq<Attached>, aksClusters: seq<Attached>, privateEndpoints: seq<Attached>, bastions: seq<Attached>,
    loadBalancers: seq<Balancer>, apiManagements: seq<string>, frontDoors: seq<string>, virtualWans: seq<seq<string>>)

  /** The resource id when there is one, else the bare name. */
  function Rid(id: Option<string>, name: string): string {
    if id.Some? && |id.value| > 0 then id.value else name
  }

  function NicRid(n: NicDef): string {
    Rid(n.id, n.name)
  }

  function PipRid(p: PipDef): string {
    Rid(p.id, p.name)
  }

  function VNetName(v: VNet): string {
    v.name
  }

  /** The part of a subnet key before its first slash, or nothing when it has none. */
  function VNetPart(subnet: string): string {
    FirstWithin('/', subnet);
    var i := First('/', subnet);
    if i < |subnet| then subnet[..i] else ""
  }

  function NicVNet(n: NicDef): string {
    VNetPart(n.subnet)
  }

  /** The network interfaces drawn in a subnet, in fixture order. */
  function NicsIn(nics: seq<NicDef>, key: string): seq<NicDef> {
    if |nics| == 0 then []
    else
      var before := NicsIn(nics[..|nics| - 1], key);
      if nics[|nics| - 1].subnet == key then before + [nics[|nics| - 1]] else before
  }

  lemma {:induction false} NicsInMembers(nics: seq<NicDef>, key: string)
    ensures forall n :: n in NicsIn(nics, key) <==> n in nics && n.subnet == key
  {
    if |nics| > 0 {
      NicsInMembers(nics[..|nics| - 1], key);
      assert nics == nics[..|nics| - 1] + [nics[|nics| - 1]];
    }
  }

  lemma {:induction false} NicsInDistinct(nics: seq<NicDef>, key: string)
    requires KeysDistinct(NicRid, nics)
    ensures KeysDistinct(NicRid, NicsIn(nics, key))
  {
    if |nics| > 0 {
      var init, last := nics[..|nics| - 1], nics[|nics| - 1];
      NicsInDistinct(init, key);
      NicsInMembers(init, key);
      forall n | n in NicsIn(init, key) ensures NicRid(n) != NicRid(last) {
        var i :| 0 <= i < |init| && init[i] == n;
        assert NicRid(nics[i]) != NicRid(nics[|nics| - 1]);
      }
    }
  }

  /** An application-band item: what is drawn, the subnet it links to, and whether it is an internet ingress. */
  datatype AppItem = AppItem(kind: Kind, name: string, subnet: Option<string>, isEdge: bool)

  function AppId(a: AppItem): CellId {
    Node(a.kind, a.name)
  }

  function AttachedItems(kind: Kind, xs: seq<Attached>): seq<AppItem> {
    seq(|xs|, i requires 0 <= i < |xs| => AppItem(kind, xs[i].name, xs[i].subnet, false))
  }

  function BalancerItems(xs: seq<Balancer>): seq<AppItem> {
    seq(|xs|, i requires 0 <= i < |xs| => AppItem(Lb, xs[i].name, None, !xs[i].internal))
  }

  function EdgeItems(kind: Kind, names: seq<string>): seq<AppItem> {
    seq(|names|, i requires 0 <= i < |names| => AppItem(kind, names[i], None, true))
  }

  function Hubs(wans: seq<seq<string>>): seq<string> {
    if |wans| == 0 then [] else Hubs(wans[..|wans| - 1]) + wans[|wans| - 1]
  }

  function AppItems(fx: Fixture): seq<AppItem> {
    AttachedItems(AppGw, fx.appGateways) + AttachedItems(Aks, fx.aksClusters)
    + AttachedItems(Pe, fx.privateEndpoints) + AttachedItems(Bastion, fx.bastions)
    + BalancerItems(fx.loadBalancers) + EdgeItems(Apim, fx.apiManagements)
    + EdgeItems(Fd, fx.frontDoors) + EdgeItems(Vhub, Hubs(fx.virtualWans))
  }

  predicate IsAppKind(k: Kind) {
    k in {AppGw, Aks, Pe, Bastion, Lb, Apim, Fd, Vhub}
  }

  lemma AppItemKinds(fx: Fixture)
    ensures forall a :: a in AppItems(fx) ==> IsAppKind(a.kind)
  {
  }

  /** Names are unique within their kind. */
  ghost predicate UniquelyNamed(fx: Fixture) {
    && KeysDistinct(VNetName, fx.vnets)
    && (forall v :: v in fx.vnets ==> Distinct(v.subnets))
    && KeysDistinct(NicRid, fx.nics) && KeysDistinct(PipRid, fx.pips)
    && Distinct(fx.gateways) && Distinct(fx.circuits) && Distinct(fx.natGateways)
    && KeysDistinct(AppId, AppItems(fx))
  }

  /** No two VNets have a subnet under the same key. */
  ghost predicate SubnetKeysApart(vnets: seq<VNet>) {
    forall v, w, s, t ::
      v in vnets && w in vnets && s in v.subnets && t in w.subnets && SubnetKey(v.name, s) == SubnetKey(w.name, t) ==>
        v.name == w.name
  }

  ghost predicate NoSlashes(vnets: seq<VNet>) {
    forall v :: v in vnets ==> Free('/', v.name)
  }

  /** Keeping slashes out of VNet names is enough. */
  lemma NoSlashesKeepKeysApart(vnets: seq<VNet>)
    requires NoSlashes(vnets)
    ensures SubnetKeysApart(vnets)
  {
    forall v, w, s, t | v in vnets && w in vnets && s in v.subnets && t in w.subnets
                        && SubnetKey(v.name, s) == SubnetKey(w.name, t)
      ensures v.name == w.name
    {
      SubnetKeyIsInjective(v.name, s, w.name, t);
    }
  }

  function PeeringCountDescending(a: VNet, b: VNet): bool {
    |a.peerings| >= |b.peerings|
  }

  /** Hub first: most peerings first, ties in fixture order. */
  function Ordered(vnets: seq<VNet>): (r: seq<VNet>)
    ensures multiset(r) == multiset(vnets) && |r| == |vnets|
  {
    Sort(PeeringCountDescending, vnets)
  }
}
