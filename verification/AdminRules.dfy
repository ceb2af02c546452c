/** Security admin rules: port coverage, the verdict on a flow, and what it does to exposure. */
module AdminRules {
  import opened Prelude

  // ---------------------------------------------------------------- port specifications

  predicate IsSpace(c: char) {
    c == ' ' || '\t' <= c <= '\r'
  }

  function StripLeft(s: string): string {
    if |s| > 0 && IsSpace(s[0]) then StripLeft(s[1..]) else s
  }

  function StripRight(s: string): string {
    if |s| > 0 && IsSpace(s[|s| - 1]) then StripRight(s[..|s| - 1]) else s
  }

  function Strip(s: string): string {
    StripRight(StripLeft(s))
  }

  predicate IsDigit(c: char) {
    '0' <= c <= '9'
  }

  /** Digits, with single underscores allowed between them. */
  predicate IsNumeral(s: string) {
    && |s| > 0 && IsDigit(s[0]) && IsDigit(s[|s| - 1])
    && (forall i :: 0 <= i < |s| ==> IsDigit(s[i]) || s[i] == '_')
    && (forall i :: 0 < i < |s| ==> IsDigit(s[i - 1]) || IsDigit(s[i]))
  }

  function NumeralValue(s: string): nat
    requires forall i :: 0 <= i < |s| ==> IsDigit(s[i]) || s[i] == '_'
  {
    if |s| == 0 then 0
    else
      var last := s[|s| - 1];
      assert IsDigit(last) || last == '_';
      if IsDigit(last) then NumeralValue(s[..|s| - 1]) * 10 + (last as int - '0' as int)
      else NumeralValue(s[..|s| - 1])
  }

  /** A decimal integer with optional sign and surrounding white space. */
  function ParseInt(text: string): Option<int> {
    var s := Strip(text);
    if IsNumeral(s) then Some(NumeralValue(s))
    else if |s| > 0 && (s[0] == '+' || s[0] == '-') && IsNumeral(s[1..]) then
      var magnitude: int := NumeralValue(s[1..]);
      Some(if s[0] == '-' then -magnitude else magnitude)
    else None
  }

  function FirstDash(s: string): (i: nat)
    ensures i <= |s| && (i < |s| ==> s[i] == '-')
  {
    if |s| == 0 || s[0] == '-' then 0 else 1 + FirstDash(s[1..])
  }

  /** An inclusive range of ports, or none for the wild card and for what is not numeric. */
  function ParseRange(text: string): (r: Option<(int, int)>)
    ensures r.Some? ==> r.value.0 <= r.value.1
  {
    var s := Strip(text);
    var d := FirstDash(s);
    if d < |s| then
      match (ParseInt(s[..d]), ParseInt(s[d + 1..]))
      case (Some(lo), Some(hi)) => if lo <= hi then Some((lo, hi)) else None
      case _ => None
    else
      match ParseInt(s)
      case Some(p) => Some((p, p))
      case None => None
  }

  predicate IsWildcard(s: string) {
    |s| == 1 && s[0] == '*'
  }

  /** Does the admin rule's port specification govern the rule's port? */
  predicate Covers(adminSpec: string, nsgPort: string) {
    var a, n := Strip(adminSpec), Strip(nsgPort);
    IsWildcard(a) || a == n
    || match (ParseRange(a), ParseRange(n))
       case (Some(ar), Some(nr)) => ar.0 <= nr.0 && ar.1 >= nr.1
       case _ => false
  }

  lemma WildcardIsNoRange(s: string)
    requires IsWildcard(s)
    ensures ParseRange(s).None?
  {
    assert StripLeft(s) == s && StripRight(s) == s;
    assert s[1..] == [];
    assert FirstDash(s) == 1;
    assert Strip(s) == s;
    assert !IsNumeral(s);
  }

  lemma CoversIsReflexive(s: string)
    ensures Covers(s, s)
  {
  }

  lemma CoversIsTransitive(a: string, b: string, c: string)
    requires Covers(a, b) && Covers(b, c)
    ensures Covers(a, c)
  {
    if IsWildcard(Strip(b)) {
      WildcardIsNoRange(Strip(b));
    }
  }

  /** Between numeric specifications, coverage is exactly inclusion of their ports. */
  lemma CoversIsInclusion(a: string, b: string)
    requires ParseRange(Strip(a)).Some? && ParseRange(Strip(b)).Some?
    ensures var ar, br := ParseRange(Strip(a)).value, ParseRange(Strip(b)).value;
            Covers(a, b) <==> forall p :: InRange(p, br) ==> InRange(p, ar)
  {
    if IsWildcard(Strip(a)) {
      WildcardIsNoRange(Strip(a));
    }
    RangeInclusion(ParseRange(Strip(a)).value, ParseRange(Strip(b)).value);
  }

  predicate InRange(p: int, r: (int, int)) {
    r.0 <= p <= r.1
  }

  lemma RangeInclusion(a: (int, int), b: (int, int))
    requires b.0 <= b.1
    ensures a.0 <= b.0 && a.1 >= b.1 <==> forall p :: InRange(p, b) ==> InRange(p, a)
  {
    assert InRange(b.0, b) && InRange(b.1, b);
  }

  /** The wild card covers everything, and nothing but the wild card covers it. */
  lemma WildcardCoversAll(a: string, b: string)
    requires IsWildcard(Strip(a))
    ensures Covers(a, b)
    ensures Covers(b, a) <==> IsWildcard(Strip(b))
  {
    WildcardIsNoRange(Strip(a));
  }

  // ---------------------------------------------------------------- the verdict

  /** Source prefixes, case folded. */
  datatype Source = InternetTag | AnyAddress | AnySource | AzureCloud | OtherSource(text: string)

  datatype Access = Allow | AlwaysAllow | Deny

  datatype AdminRule = AdminRule(inbound: bool, appliesTo: seq<string>, ports: string, source: Source,
                                 priority: Option<int>, access: Access)

  const NO_PRIORITY := 1_000_000_000

  predicate IsInternetSource(s: Source) {
    s.InternetTag? || s.AnyAddress? || s.AnySource?
  }

  /** Does the rule govern a flow from the internet to `port` in `vnet`? */
  predicate Governs(r: AdminRule, vnet: string, port: string) {
    r.inbound && vnet in r.appliesTo && Covers(r.ports, port) && IsInternetSource(r.source)
  }

  function PriorityOf(r: AdminRule): int {
    if r.priority.Some? then r.priority.value else NO_PRIORITY
  }

  /** A rule that can be chosen at all: it governs, and its priority is below the one for none. */
  predicate Candidate(r: AdminRule, vnet: string, port: string) {
    Governs(r, vnet, port) && PriorityOf(r) < NO_PRIORITY
  }

  /** Number `i` is the earliest of the candidates of least priority. */
  ghost predicate IsChosen(rules: seq<AdminRule>, vnet: string, port: string, i: int) {
    && 0 <= i < |rules| && Candidate(rules[i], vnet, port)
    && forall j :: 0 <= j < |rules| && Candidate(rules[j], vnet, port) ==> NotAfter(rules, i, j)
  }

  /** Number `i` has the lesser priority, or the same and the earlier place. */
  predicate NotAfter(rules: seq<AdminRule>, i: int, j: int)
    requires 0 <= i < |rules| && 0 <= j < |rules|
  {
    PriorityOf(rules[i]) < PriorityOf(rules[j]) || (PriorityOf(rules[i]) == PriorityOf(rules[j]) && i <= j)
  }

  ghost predicate NoCandidate(rules: seq<AdminRule>, vnet: string, port: string) {
    forall j :: 0 <= j < |rules| ==> !Candidate(rules[j], vnet, port)
  }

  /** The index the running minimum ends on, or -1. */
  function Choice(rules: seq<AdminRule>, vnet: string, port: string): (i: int)
    ensures -1 <= i < |rules|
    ensures i >= 0 ==> PriorityOf(rules[i]) < NO_PRIORITY
  {
    if |rules| == 0 then -1
    else
      var init, r := rules[..|rules| - 1], rules[|rules| - 1];
      var best := Choice(init, vnet, port);
      if Governs(r, vnet, port) && PriorityOf(r) < (if best >= 0 then PriorityOf(init[best]) else NO_PRIORITY)
      then |rules| - 1 else best
  }

  function Verdict(rules: seq<AdminRule>, vnet: string, port: string): Option<Access> {
    var i := Choice(rules, vnet, port);
    if i >= 0 then Some(rules[i].access) else None
  }

  lemma {:induction false} ChoiceIsChosen(rules: seq<AdminRule>, vnet: string, port: string)
    ensures var i := Choice(rules, vnet, port);
            if i >= 0 then IsChosen(rules, vnet, port, i) else NoCandidate(rules, vnet, port)
  {
    if |rules| > 0 {
      var init, last := rules[..|rules| - 1], rules[|rules| - 1];
      assert rules == init + [last];
      ChoiceIsChosen(init, vnet, port);
      if Choice(init, vnet, port) >= 0 {
        ChosenOneMore(init, last, vnet, port, Choice(init, vnet, port));
      } else {
        FirstCandidate(init, last, vnet, port);
      }
    }
  }

  lemma ChosenOneMore(rules: seq<AdminRule>, r: AdminRule, vnet: string, port: string, i: nat)
    requires IsChosen(rules, vnet, port, i)
    ensures if Candidate(r, vnet, port) && PriorityOf(r) < PriorityOf(rules[i])
            then IsChosen(rules + [r], vnet, port, |rules|) else IsChosen(rules + [r], vnet, port, i)
  {
    var more := rules + [r];
    forall j | 0 <= j < |more| && Candidate(more[j], vnet, port) ensures j == |rules| || NotAfter(rules, i, j) {
      assert j < |rules| ==> more[j] == rules[j];
    }
  }

  lemma FirstCandidate(rules: seq<AdminRule>, r: AdminRule, vnet: string, port: string)
    requires NoCandidate(rules, vnet, port)
    ensures if Candidate(r, vnet, port) then IsChosen(rules + [r], vnet, port, |rules|) else NoCandidate(rules + [r], vnet, port)
  {
  }

  method AdminVerdict(rules: seq<AdminRule>, vnet: string, port: string) returns (best: Option<Access>)
    ensures best == Verdict(rules, vnet, port)
  {
    best := None;
    var bestPriority := NO_PRIORITY;
    for i := 0 to |rules|
      invariant best == Verdict(rules[..i], vnet, port)
      invariant var c := Choice(rules[..i], vnet, port);
                bestPriority == if c >= 0 then PriorityOf(rules[c]) else NO_PRIORITY
    {
      var r := rules[i];
      assert rules[..i + 1][..i] == rules[..i];
      if !r.inbound || vnet !in r.appliesTo || !Covers(r.ports, port) || !IsInternetSource(r.source) {
        continue;
      }
      var priority := PriorityOf(r);
      if priority < bestPriority {
        best, bestPriority := Some(r.access), priority;
      }
    }
    assert rules[..|rules|] == rules;
  }

  // ---------------------------------------------------------------- one more deny rule

  function Inserted<T>(s: seq<T>, k: nat, x: T): seq<T>
    requires k <= |s|
  {
    s[..k] + [x] + s[k..]
  }

  /** Where rule number `j` stands after the insertion. */
  function Moved(k: nat, j: nat): nat {
    if j < k then j else j + 1
  }

  lemma InsertedAt<T>(s: seq<T>, k: nat, x: T, j: nat)
    requires k <= |s| && j < |s|
    ensures |Inserted(s, k, x)| == |s| + 1 && Inserted(s, k, x)[Moved(k, j)] == s[j] && Inserted(s, k, x)[k] == x
  {
  }

  lemma CandidatesMove(rules: seq<AdminRule>, k: nat, d: AdminRule, vnet: string, port: string, j: nat)
    requires k <= |rules| && j < |rules| && NoCandidate(Inserted(rules, k, d), vnet, port)
    ensures !Candidate(rules[j], vnet, port)
  {
    InsertedAt(rules, k, d, j);
  }

  lemma ChosenMovesBack(rules: seq<AdminRule>, k: nat, d: AdminRule, vnet: string, port: string, b: nat)
    requires k <= |rules| && b < |rules| && IsChosen(Inserted(rules, k, d), vnet, port, Moved(k, b))
    ensures IsChosen(rules, vnet, port, b)
  {
    InsertedAt(rules, k, d, b);
    forall j | 0 <= j < |rules| && Candidate(rules[j], vnet, port) ensures NotAfter(rules, b, j) {
      InsertedAt(rules, k, d, j);
      assert NotAfter(Inserted(rules, k, d), Moved(k, b), Moved(k, j));
    }
  }

  /** A deny rule added anywhere either decides the flow or leaves the verdict as it was. */
  lemma DenyDecidesOrChangesNothing(rules: seq<AdminRule>, k: nat, d: AdminRule, vnet: string, port: string)
    requires k <= |rules| && d.access == Deny
    ensures Verdict(Inserted(rules, k, d), vnet, port) in {Some(Deny), Verdict(rules, vnet, port)}
  {
    var more := Inserted(rules, k, d);
    ChoiceIsChosen(rules, vnet, port);
    ChoiceIsChosen(more, vnet, port);
    var i, c := Choice(more, vnet, port), Choice(rules, vnet, port);
    if i < 0 {
      if c >= 0 {
        CandidatesMove(rules, k, d, vnet, port, c);
      }
    } else if i != k {
      var b := if i < k then i else i - 1;
      InsertedAt(rules, k, d, b);
      ChosenMovesBack(rules, k, d, vnet, port, b);
      StillChosen(rules, vnet, port, b, c);
    }
  }

  lemma StillChosen(rules: seq<AdminRule>, vnet: string, port: string, b: int, c: int)
    requires IsChosen(rules, vnet, port, b)
    requires if c >= 0 then IsChosen(rules, vnet, port, c) else NoCandidate(rules, vnet, port)
    ensures b == c
  {
  }

  // ---------------------------------------------------------------- exposure of network interfaces

  datatype Hop = InternetHop | NoHop | OtherHop(name: string)

  datatype Route = Route(isDefault: bool, hop: Option<Hop>)

  datatype NsgRule = NsgRule(inbound: bool, source: Source, port: string, allows: bool)

  datatype Nic = Nic(id: string, vnet: string, hasPublicIp: bool, routes: seq<Route>, rules: seq<NsgRule>)

  /** One finding of the exposure check: the rule it is about and whether the flow gets through. */
  datatype Exposure = Exposure(nic: nat, rule: nat, reachable: bool)

  /** The next hop of the first default route. */
  function DefaultHop(routes: seq<Route>): Option<Hop> {
    if |routes| == 0 then None
    else if routes[0].isDefault then routes[0].hop else DefaultHop(routes[1..])
  }

  predicate IsBroad(s: Source) {
    IsInternetSource(s) || s.AzureCloud?
  }

  predicate Opens(verdict: Option<Access>, nsgAllows: bool) {
    match verdict
    case Some(AlwaysAllow) => true
    case Some(Deny) => false
    case _ => nsgAllows
  }

  predicate Reachable(admin: seq<AdminRule>, nic: Nic, r: NsgRule) {
    Opens(Verdict(admin, nic.vnet, r.port), r.allows) && nic.hasPublicIp && DefaultHop(nic.routes) == Some(InternetHop)
  }

  predicate Examined(r: NsgRule) {
    r.inbound && IsBroad(r.source)
  }

  /** Findings on the first `m` rules of an interface. */
  function NicExposures(admin: seq<AdminRule>, nic: Nic, n: nat, m: nat): seq<Exposure>
    requires m <= |nic.rules|
  {
    if m == 0 then []
    else
      var r := nic.rules[m - 1];
      NicExposures(admin, nic, n, m - 1)
      + if Examined(r) then [Exposure(n, m - 1, Reachable(admin, nic, r))] else []
  }

  function Exposures(admin: seq<AdminRule>, nics: seq<Nic>): seq<Exposure> {
    if |nics| == 0 then []
    else
      var n := |nics| - 1;
      Exposures(admin, nics[..n]) + NicExposures(admin, nics[n], n, |nics[n].rules|)
  }

  method FindDefaultHop(routes: seq<Route>) returns (hop: Option<Hop>)
    ensures hop == DefaultHop(routes)
  {
    for i := 0 to |routes|
      invariant DefaultHop(routes) == DefaultHop(routes[i..])
    {
      if routes[i].isDefault {
        return routes[i].hop;
      }
    }
    return None;
  }

  /** The findings on one interface, gate by gate. */
  method NicFindings(admin: seq<AdminRule>, nic: Nic, n: nat) returns (findings: seq<Exposure>)
    ensures findings == NicExposures(admin, nic, n, |nic.rules|)
  {
    findings := [];
    var hop := FindDefaultHop(nic.routes);
    for m := 0 to |nic.rules|
      invariant findings == NicExposures(admin, nic, n, m)
    {
      var r := nic.rules[m];
      if !r.inbound || !IsBroad(r.source) {
        continue;
      }
      var verdict := AdminVerdict(admin, nic.vnet, r.port);
      var open := if verdict == Some(AlwaysAllow) then true else if verdict == Some(Deny) then false else r.allows;
      var reachable := open && nic.hasPublicIp && hop == Some(InternetHop);
      findings := findings + [Exposure(n, m, reachable)];
    }
  }

  method ExposureFindings(admin: seq<AdminRule>, nics: seq<Nic>) returns (findings: seq<Exposure>)
    ensures findings == Exposures(admin, nics)
  {
    findings := [];
    for n := 0 to |nics|
      invariant findings == Exposures(admin, nics[..n])
    {
      assert nics[..n + 1][..n] == nics[..n];
      var onNic := NicFindings(admin, nics[n], n);
      findings := findings + onNic;
    }
    assert nics[..|nics|] == nics;
  }

  /** The findings of two runs are about the same rules, and the second run reaches no more of them. */
  ghost predicate NoMoreReachable(before: seq<Exposure>, after: seq<Exposure>) {
    |before| == |after| && forall i :: 0 <= i < |before| ==>
      && after[i].nic == before[i].nic && after[i].rule == before[i].rule
      && (after[i].reachable ==> before[i].reachable)
  }

  lemma DenyClosesOnly(admin: seq<AdminRule>, k: nat, d: AdminRule, nic: Nic, r: NsgRule)
    requires k <= |admin| && d.access == Deny
    ensures Reachable(Inserted(admin, k, d), nic, r) ==> Reachable(admin, nic, r)
  {
    DenyDecidesOrChangesNothing(admin, k, d, nic.vnet, r.port);
  }

  lemma {:induction false} DenyShrinksNic(admin: seq<AdminRule>, k: nat, d: AdminRule, nic: Nic, n: nat, m: nat)
    requires k <= |admin| && d.access == Deny && m <= |nic.rules|
    ensures NoMoreReachable(NicExposures(admin, nic, n, m), NicExposures(Inserted(admin, k, d), nic, n, m))
  {
    if m > 0 {
      DenyShrinksNic(admin, k, d, nic, n, m - 1);
      DenyClosesOnly(admin, k, d, nic, nic.rules[m - 1]);
    }
  }

  /** A deny rule added anywhere makes no flow reachable, and moves findings from reachable to latent
      without adding or losing any. */
  lemma {:induction false} DenyOnlyShrinksExposure(admin: seq<AdminRule>, k: nat, d: AdminRule, nics: seq<Nic>)
    requires k <= |admin| && d.access == Deny
    ensures NoMoreReachable(Exposures(admin, nics), Exposures(Inserted(admin, k, d), nics))
  {
    if |nics| > 0 {
      var n := |nics| - 1;
      DenyOnlyShrinksExposure(admin, k, d, nics[..n]);
      DenyShrinksNic(admin, k, d, nics[n], n, |nics[n].rules|);
    }
  }
}
