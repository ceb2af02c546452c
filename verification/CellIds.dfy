/** Identities of diagram cells, and why their printed forms never collide. */
module CellIds {
  import opened Prelude

  datatype Kind =
    | Fw | Gw | Er | NatGw | Pip | Vnet | Subnet | Nic | Ext
    | AppGw | Aks | Pe | Bastion | Lb | Apim | Fd | Vhub

  datatype Prefix = Peer | Cidr | Exp | GwLink | FwLink | AppEdge

  /** The page and three fixed cells, nodes named within their kind, and edges numbered by one counter. */
  datatype CellId = Root | Internet | Legend | AppLabel | Node(kind: Kind, name: string) | Edge(prefix: Prefix, n: nat)

  datatype Tag = FixedTag | KindTag(kind: Kind) | PrefixTag(prefix: Prefix)

  function TagText(t: Tag): string
    requires !t.FixedTag?
  {
    match t
    case KindTag(Fw) => "fw"
    case KindTag(Gw) => "gw"
    case KindTag(Er) => "er"
    case KindTag(NatGw) => "natgw"
    case KindTag(Pip) => "pip"
    case KindTag(Vnet) => "vnet"
    case KindTag(Subnet) => "subnet"
    case KindTag(Nic) => "nic"
    case KindTag(Ext) => "ext"
    case KindTag(AppGw) => "appgw"
    case KindTag(Aks) => "aks"
    case KindTag(Pe) => "pe"
    case KindTag(Bastion) => "bastion"
    case KindTag(Lb) => "lb"
    case KindTag(Apim) => "apim"
    case KindTag(Fd) => "fd"
    case KindTag(Vhub) => "vhub"
    case PrefixTag(Peer) => "peer"
    case PrefixTag(Cidr) => "cidr"
    case PrefixTag(Exp) => "exp"
    case PrefixTag(GwLink) => "gwlink"
    case PrefixTag(FwLink) => "fwlink"
    case PrefixTag(AppEdge) => "appedge"
  }

  /** The id as it is written in the file. */
  function Text(id: CellId): string {
    match id
    case Root => "1"
    case Internet => "internet"
    case Legend => "legend"
    case AppLabel => "applayer-label"
    case Node(kind, name) => TagText(KindTag(kind)) + ":" + name
    case Edge(prefix, n) => TagText(PrefixTag(prefix)) + ":" + Decimal(n)
  }

  // ---------------------------------------------------------------- reading an id back

  /** The tag a text names, by trying them all. */
  function ReadTag(s: string): Option<Tag> {
    if s == "fw" then Some(KindTag(Fw))
    else if s == "gw" then Some(KindTag(Gw))
    else if s == "er" then Some(KindTag(Er))
    else if s == "natgw" then Some(KindTag(NatGw))
    else if s == "pip" then Some(KindTag(Pip))
    else if s == "vnet" then Some(KindTag(Vnet))
    else if s == "subnet" then Some(KindTag(Subnet))
    else if s == "nic" then Some(KindTag(Nic))
    else if s == "ext" then Some(KindTag(Ext))
    else if s == "appgw" then Some(KindTag(AppGw))
    else if s == "aks" then Some(KindTag(Aks))
    else if s == "pe" then Some(KindTag(Pe))
    else if s == "bastion" then Some(KindTag(Bastion))
    else if s == "lb" then Some(KindTag(Lb))
    else if s == "apim" then Some(KindTag(Apim))
    else if s == "fd" then Some(KindTag(Fd))
    else if s == "vhub" then Some(KindTag(Vhub))
    else if s == "peer" then Some(PrefixTag(Peer))
    else if s == "cidr" then Some(PrefixTag(Cidr))
    else if s == "exp" then Some(PrefixTag(Exp))
    else if s == "gwlink" then Some(PrefixTag(GwLink))
    else if s == "fwlink" then Some(PrefixTag(FwLink))
    else if s == "appedge" then Some(PrefixTag(AppEdge))
    else None
  }

  lemma TagIsRead(t: Tag)
    requires !t.FixedTag?
    ensures ReadTag(TagText(t)) == Some(t)
  {
  }

  predicate Free(c: char, s: string) {
    forall i :: 0 <= i < |s| ==> s[i] != c
  }

  lemma TagsHaveNoColon(t: Tag)
    requires !t.FixedTag?
    ensures Free(':', TagText(t))
  {
  }

  /** Where a character first occurs, or the length of the text. */
  function First(c: char, s: string): nat {
    if |s| == 0 || s[0] == c then 0 else 1 + First(c, s[1..])
  }

  lemma {:induction false} FirstAfter(c: char, t: string, rest: string)
    requires Free(c, t)
    ensures First(c, t + [c] + rest) == |t|
    ensures (t + [c] + rest)[..|t|] == t && (t + [c] + rest)[|t| + 1..] == rest
  {
    if |t| > 0 {
      FirstAfter(c, t[1..], rest);
      assert (t + [c] + rest)[1..] == t[1..] + [c] + rest;
    }
  }

  lemma {:induction false} FirstSplits(c: char, s: string)
    ensures First(c, s) < |s| ==> s[First(c, s)] == c && Free(c, s[..First(c, s)])
  {
    if |s| > 0 && s[0] != c {
      FirstSplits(c, s[1..]);
      var n := First(c, s[1..]);
      if n < |s[1..]| {
        assert s[..n + 1] == [s[0]] + s[1..][..n];
      }
    }
  }

  lemma {:induction false} FirstWithin(c: char, s: string)
    ensures First(c, s) <= |s| && (First(c, s) == |s| <==> Free(c, s))
  {
    if |s| > 0 && s[0] != c {
      FirstWithin(c, s[1..]);
      assert s == [s[0]] + s[1..];
    }
  }

  function Value(s: string): int {
    if |s| == 0 then 0 else Value(s[..|s| - 1]) * 10 + (s[|s| - 1] as int - '0' as int)
  }

  lemma {:induction false} DecimalIsRead(n: nat)
    ensures Value(Decimal(n)) == n
  {
    if n < 10 {
      var s := Decimal(n);
      assert s[..0] == [] && Value([]) == 0;
    } else {
      DecimalIsRead(n / 10);
      var s := Decimal(n);
      assert s[..|s| - 1] == Decimal(n / 10);
    }
  }

  function TagOf(id: CellId): Tag {
    match id
    case Node(kind, _) => KindTag(kind)
    case Edge(prefix, _) => PrefixTag(prefix)
    case _ => FixedTag
  }

  /** A node or edge is read back from what it was written as. */
  lemma WrittenIsRead(id: CellId)
    requires !TagOf(id).FixedTag?
    ensures var s := Text(id); var i := First(':', s);
            && i < |s| && ReadTag(s[..i]) == Some(TagOf(id))
            && (id.Node? ==> s[i + 1..] == id.name)
            && (id.Edge? ==> Value(s[i + 1..]) == id.n)
  {
    var t := TagOf(id);
    TagIsRead(t);
    TagsHaveNoColon(t);
    if id.Node? {
      FirstAfter(':', TagText(t), id.name);
    } else {
      FirstAfter(':', TagText(t), Decimal(id.n));
      DecimalIsRead(id.n);
    }
  }

  lemma FixedHaveNoColon(id: CellId)
    requires TagOf(id).FixedTag?
    ensures Free(':', Text(id))
  {
  }

  /** Different cells are written differently, whatever names the fixture uses. */
  lemma TextIsInjective(a: CellId, b: CellId)
    requires Text(a) == Text(b)
    ensures a == b
  {
    if TagOf(a).FixedTag? || TagOf(b).FixedTag? {
      FixedAgree(a, b);
    } else {
      WrittenIsRead(a);
      WrittenIsRead(b);
    }
  }

  lemma FixedAgree(a: CellId, b: CellId)
    requires Text(a) == Text(b) && (TagOf(a).FixedTag? || TagOf(b).FixedTag?)
    ensures a == b
  {
    if TagOf(a).FixedTag? && TagOf(b).FixedTag? {
      assert |"1"| == 1 && |"internet"| == 8 && |"legend"| == 6 && |"applayer-label"| == 14;
    } else if TagOf(a).FixedTag? {
      FixedHaveNoColon(a);
      FirstWithin(':', Text(a));
      WrittenIsRead(b);
    } else {
      FixedHaveNoColon(b);
      FirstWithin(':', Text(b));
      WrittenIsRead(a);
    }
  }

  // ---------------------------------------------------------------- subnet keys

  function SubnetKey(vnet: string, subnet: string): string {
    vnet + "/" + subnet
  }

  /** Keys tell subnets apart as long as VNet names hold no slash. */
  lemma SubnetKeyIsInjective(v: string, s: string, w: string, t: string)
    requires Free('/', v) && Free('/', w) && SubnetKey(v, s) == SubnetKey(w, t)
    ensures v == w && s == t
  {
    FirstAfter('/', v, s);
    FirstAfter('/', w, t);
  }

  lemma SameVNetKeys(v: string, s: string, t: string)
    requires SubnetKey(v, s) == SubnetKey(v, t)
    ensures s == t
  {
    assert SubnetKey(v, s)[|v| + 1..] == s;
    assert SubnetKey(v, t)[|v| + 1..] == t;
  }

  /** With a slash they need not be. */
  lemma SlashesCollide()
    ensures SubnetKey("a/b", "c") == SubnetKey("a", "b/c")
  {
  }
}
