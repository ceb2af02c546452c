/** What the texts of the port specifications mean, and which gate decides whether a flow gets through. */
module AdminGates {
  import opened Prelude
  import opened AdminRules

  // ---------------------------------------------------------------- numbers as they are written

  ghost predicate AllDigits(s: string) {
    |s| > 0 && forall i :: 0 <= i < |s| ==> '0' <= s[i] <= '9'
  }

  lemma {:induction false} DecimalIsNumeral(n: nat)
    ensures AllDigits(Decimal(n)) && IsNumeral(Decimal(n)) && NumeralValue(Decimal(n)) == n
  {
    var s := Decimal(n);
    if n < 10 {
      assert s[..0] == [] && NumeralValue([]) == 0;
    } else {
      DecimalIsNumeral(n / 10);
      assert s[..|s| - 1] == Decimal(n / 10);
    }
  }

  /** Nothing to strip at either end. */
  ghost predicate Bare(s: string) {
    |s| > 0 && !IsSpace(s[0]) && !IsSpace(s[|s| - 1])
  }

  lemma BareIsStripped(s: string)
    requires Bare(s)
    ensures Strip(s) == s
  {
    assert StripLeft(s) == s && StripRight(s) == s;
  }

  lemma DecimalIsParsed(n: nat)
    ensures Bare(Decimal(n)) && ParseInt(Decimal(n)) == Some(n)
  {
    DecimalIsNumeral(n);
    BareIsStripped(Decimal(n));
  }

  /** A sign before a number counts. */
  lemma SignedIsParsed(n: nat)
    ensures var plus, minus := ParseInt("+" + Decimal(n)), ParseInt("-" + Decimal(n));
            plus.Some? && plus.value == n && minus.Some? && minus.value + n == 0
  {
    DecimalIsNumeral(n);
    forall sign | sign in {"+", "-"} ensures Bare(sign + Decimal(n)) && (sign + Decimal(n))[1..] == Decimal(n) {
    }
    BareIsStripped("+" + Decimal(n));
    BareIsStripped("-" + Decimal(n));
  }

  lemma {:induction false} FirstDashIs(a: string, b: string)
    requires forall i :: 0 <= i < |a| ==> a[i] != '-'
    ensures FirstDash(a + ['-'] + b) == |a| && FirstDash(a) == |a|
  {
    if |a| > 0 {
      FirstDashIs(a[1..], b);
      assert (a + ['-'] + b)[1..] == a[1..] + ['-'] + b;
    }
  }

  /** A span of ports as it is written. */
  function Span(lo: nat, hi: nat): string {
    Decimal(lo) + ['-'] + Decimal(hi)
  }

  lemma SpanIsBare(lo: nat, hi: nat)
    ensures Bare(Span(lo, hi)) && FirstDash(Span(lo, hi)) == |Decimal(lo)|
    ensures Span(lo, hi)[..|Decimal(lo)|] == Decimal(lo) && Span(lo, hi)[|Decimal(lo)| + 1..] == Decimal(hi)
  {
    DecimalIsNumeral(lo);
    DecimalIsNumeral(hi);
    FirstDashIs(Decimal(lo), Decimal(hi));
    DecimalIsParsed(lo);
    DecimalIsParsed(hi);
  }

  lemma SpanIsParsed(lo: nat, hi: nat)
    ensures ParseRange(Span(lo, hi)) == if lo <= hi then Some((lo, hi)) else None
  {
    SpanIsBare(lo, hi);
    BareIsStripped(Span(lo, hi));
    DecimalIsParsed(lo);
    DecimalIsParsed(hi);
  }

  lemma PortIsParsed(p: nat)
    ensures ParseRange(Decimal(p)) == Some((p, p))
  {
    DecimalIsNumeral(p);
    DecimalIsParsed(p);
    BareIsStripped(Decimal(p));
    FirstDashIs(Decimal(p), "");
  }

  ghost predicate AllBlank(s: string) {
    forall i :: 0 <= i < |s| ==> s[i] == ' ' || s[i] == '\t' || s[i] == '\n' || s[i] == '\r'
  }

  lemma {:induction false} BlanksStripped(a: string, s: string, b: string)
    requires AllBlank(a) && AllBlank(b) && Bare(s)
    ensures Strip(a + s + b) == s
  {
    StrippedLeft(a, s + b);
    assert a + s + b == a + (s + b);
    StrippedRight(s, b);
  }

  lemma {:induction false} StrippedLeft(a: string, s: string)
    requires AllBlank(a) && |s| > 0 && !IsSpace(s[0])
    ensures StripLeft(a + s) == s
  {
    if |a| > 0 {
      StrippedLeft(a[1..], s);
      assert (a + s)[1..] == a[1..] + s;
    } else {
      assert a + s == s;
    }
  }

  lemma {:induction false} StrippedRight(s: string, b: string)
    requires AllBlank(b) && |s| > 0 && !IsSpace(s[|s| - 1])
    ensures StripRight(s + b) == s
  {
    if |b| > 0 {
      StrippedRight(s, b[..|b| - 1]);
      assert (s + b)[..|s + b| - 1] == s + b[..|b| - 1];
    } else {
      assert s + b == s;
    }
  }

  lemma WordsDiffer(lo: nat, hi: nat, p: nat)
    ensures Span(lo, hi) != Decimal(p) && !IsWildcard(Span(lo, hi)) && !IsWildcard(Decimal(p))
  {
    SpanIsBare(lo, hi);
    DecimalIsNumeral(p);
    DecimalIsNumeral(lo);
    FirstDashIs(Decimal(p), "");
  }

  /** An admin rule on a span of ports, blanks around it or not, governs a port exactly when it lies in the span. */
  lemma SpanCoversPort(lo: nat, hi: nat, p: nat, before: string, after: string)
    requires AllBlank(before) && AllBlank(after)
    ensures Covers(before + Span(lo, hi) + after, Decimal(p)) <==> lo <= p <= hi
  {
    SpanIsBare(lo, hi);
    DecimalIsParsed(p);
    BlanksStripped(before, Span(lo, hi), after);
    BareIsStripped(Decimal(p));
    WordsDiffer(lo, hi, p);
    SpanIsParsed(lo, hi);
    PortIsParsed(p);
  }

  /** It governs a span exactly when that one lies within it, or is the same text. */
  lemma SpanCoversSpan(lo: nat, hi: nat, a: nat, b: nat)
    ensures Covers(Span(lo, hi), Span(a, b)) <==> (lo <= a <= b <= hi) || Span(lo, hi) == Span(a, b)
  {
    SpanIsBare(lo, hi);
    SpanIsBare(a, b);
    BareIsStripped(Span(lo, hi));
    BareIsStripped(Span(a, b));
    WordsDiffer(lo, hi, 0);
    SpanIsParsed(lo, hi);
    SpanIsParsed(a, b);
  }

  /** A single port governs that port and no other. */
  lemma PortCoversPort(p: nat, q: nat)
    ensures Covers(Decimal(p), Decimal(q)) <==> p == q
  {
    DecimalIsParsed(p);
    DecimalIsParsed(q);
    BareIsStripped(Decimal(p));
    BareIsStripped(Decimal(q));
    WordsDiffer(0, 0, p);
    PortIsParsed(p);
    PortIsParsed(q);
  }

  // ---------------------------------------------------------------- the gates

  /** An inbound rule for the VNet and the port, whose source is the internet or everything. */
  ghost predicate Applies(r: AdminRule, vnet: string, port: string) {
    r.inbound && vnet in r.appliesTo && Covers(r.ports, port) && r.source in {InternetTag, AnyAddress, AnySource}
  }

  /** Number `i` applies, and every other rule that does has a greater priority number or none. */
  ghost predicate IsTop(admin: seq<AdminRule>, vnet: string, port: string, i: int) {
    && 0 <= i < |admin| && Applies(admin[i], vnet, port)
    && admin[i].priority.Some? && admin[i].priority.value < 1_000_000_000
    && forall j :: 0 <= j < |admin| && j != i && Applies(admin[j], vnet, port) && admin[j].priority.Some? ==>
         admin[i].priority.value < admin[j].priority.value
  }

  lemma TopIsChosen(admin: seq<AdminRule>, vnet: string, port: string, i: int)
    requires IsTop(admin, vnet, port, i)
    ensures Verdict(admin, vnet, port) == Some(admin[i].access)
  {
    ChoiceIsChosen(admin, vnet, port);
    var c := Choice(admin, vnet, port);
    assert Candidate(admin[i], vnet, port);
    assert c >= 0 ==> Applies(admin[c], vnet, port) && admin[c].priority.Some?;
  }

  lemma NoneApplies(admin: seq<AdminRule>, vnet: string, port: string)
    requires forall j :: 0 <= j < |admin| ==> !Applies(admin[j], vnet, port)
    ensures Verdict(admin, vnet, port) == None
  {
    ChoiceIsChosen(admin, vnet, port);
    var c := Choice(admin, vnet, port);
    assert c >= 0 ==> Applies(admin[c], vnet, port);
  }

  /** The first default route, if there is one, leads to the internet. */
  ghost predicate LeavesToInternet(routes: seq<Route>) {
    exists k :: 0 <= k < |routes| && routes[k].isDefault && routes[k].hop == Some(InternetHop)
                && forall j :: 0 <= j < k ==> !routes[j].isDefault
  }

  lemma {:induction false} DefaultHopLeaves(routes: seq<Route>)
    ensures DefaultHop(routes) == Some(InternetHop) <==> LeavesToInternet(routes)
  {
    if |routes| > 0 && !routes[0].isDefault {
      DefaultHopLeaves(routes[1..]);
      if LeavesToInternet(routes) {
        var k :| 0 <= k < |routes| && routes[k].isDefault && routes[k].hop == Some(InternetHop)
                 && forall j :: 0 <= j < k ==> !routes[j].isDefault;
        assert routes[1..][k - 1] == routes[k];
        assert forall j :: 0 <= j < k - 1 ==> routes[1..][j] == routes[j + 1];
      }
      if LeavesToInternet(routes[1..]) {
        var k :| 0 <= k < |routes[1..]| && routes[1..][k].isDefault && routes[1..][k].hop == Some(InternetHop)
                 && forall j :: 0 <= j < k ==> !routes[1..][j].isDefault;
        assert routes[k + 1] == routes[1..][k];
        assert forall j :: 0 < j < k + 1 ==> routes[j] == routes[1..][j - 1];
      }
    }
  }

  /** Under a topmost rule that always allows, a public interface whose way out leads to the internet is reachable
      whatever its own rule says; under one that denies it is not; under one that allows its own rule decides. */
  lemma TopRuleDecides(admin: seq<AdminRule>, nic: Nic, r: NsgRule, i: int)
    requires IsTop(admin, nic.vnet, r.port, i)
    ensures admin[i].access == AlwaysAllow ==> (Reachable(admin, nic, r) <==> nic.hasPublicIp && LeavesToInternet(nic.routes))
    ensures admin[i].access == Deny ==> !Reachable(admin, nic, r)
    ensures admin[i].access == Allow ==>
              (Reachable(admin, nic, r) <==> r.allows && nic.hasPublicIp && LeavesToInternet(nic.routes))
  {
    TopIsChosen(admin, nic.vnet, r.port, i);
    DefaultHopLeaves(nic.routes);
  }

  /** Where no admin rule applies, the interface's own rule decides. */
  lemma OwnRuleDecides(admin: seq<AdminRule>, nic: Nic, r: NsgRule)
    requires forall j :: 0 <= j < |admin| ==> !Applies(admin[j], nic.vnet, r.port)
    ensures Reachable(admin, nic, r) <==> r.allows && nic.hasPublicIp && LeavesToInternet(nic.routes)
  {
    NoneApplies(admin, nic.vnet, r.port);
    DefaultHopLeaves(nic.routes);
  }

  // ---------------------------------------------------------------- which rules are examined

  ghost predicate IsExamined(nics: seq<Nic>, x: Exposure) {
    && x.nic < |nics| && x.rule < |nics[x.nic].rules|
    && nics[x.nic].rules[x.rule].inbound
    && nics[x.nic].rules[x.rule].source in {InternetTag, AnyAddress, AnySource, AzureCloud}
  }

  lemma {:induction false} NicExposuresAre(admin: seq<AdminRule>, nic: Nic, n: nat, m: nat, x: Exposure)
    requires m <= |nic.rules|
    ensures x in NicExposures(admin, nic, n, m) <==>
            && x.nic == n && x.rule < m && nic.rules[x.rule].inbound
            && nic.rules[x.rule].source in {InternetTag, AnyAddress, AnySource, AzureCloud}
            && x.reachable == Reachable(admin, nic, nic.rules[x.rule])
  {
    if m > 0 {
      NicExposuresAre(admin, nic, n, m - 1, x);
    }
  }

  /** There is an entry for every inbound rule from the internet, from everything or from the cloud, and for no other;
      it tells whether the flow gets through. */
  lemma {:induction false} ExposuresAre(admin: seq<AdminRule>, nics: seq<Nic>, x: Exposure)
    ensures x in Exposures(admin, nics) <==>
            IsExamined(nics, x) && x.reachable == Reachable(admin, nics[x.nic], nics[x.nic].rules[x.rule])
  {
    if |nics| > 0 {
      var n := |nics| - 1;
      ExposuresAre(admin, nics[..n], x);
      NicExposuresAre(admin, nics[n], n, |nics[n].rules|, x);
    }
  }
}
