/** The evaluation harness: greedy pairing of engine findings with expected ones, and its scores. */
module EvalMatch {
  import opened Prelude

  /** The severities the gates group by, and any other text; no text means none is named. */
  datatype Severity = Critical | High | Medium | Other(name: string)

  /** A finding; an empty field of an expected finding asks for nothing. */
  datatype Finding = Finding(kind: string, severity: Severity, resource: string, evidence: string)

  predicate Named(s: Severity) {
    s.Other? ==> |s.name| > 0
  }

  predicate Matches(eng: Finding, exp: Finding) {
    && (exp.kind != "" ==> Contains(exp.kind, eng.kind))
    && (Named(exp.severity) ==> exp.severity == eng.severity)
    && (exp.resource != "" ==> exp.resource == eng.resource)
    && (exp.evidence != "" ==> Contains(exp.evidence, eng.evidence))
  }

  /** A finding meets an expectation exactly when it agrees with every field that asks for something: the resource
      and the severity as they are, the kind and the evidence as part of its own. */
  lemma MatchIsAgreement(eng: Finding, exp: Finding)
    ensures Matches(eng, exp) <==>
            && (exp.resource == "" || eng.resource == exp.resource)
            && (exp.severity == Other("") || eng.severity == exp.severity)
            && Within(exp.kind, eng.kind) && Within(exp.evidence, eng.evidence)
  {
    ContainsIsWithin(exp.kind, eng.kind);
    ContainsIsWithin(exp.evidence, eng.evidence);
    assert IsAt("", eng.kind, 0) && IsAt("", eng.evidence, 0);
  }

  // ---------------------------------------------------------------- the pairing

  /** The first engine finding from `i` on that is free and meets `exp`, or -1. */
  function FirstFree(engine: seq<Finding>, taken: set<int>, exp: Finding, i: nat): (f: int)
    requires i <= |engine|
    ensures f == -1 || i <= f < |engine|
    ensures f >= 0 ==> f !in taken && Matches(engine[f], exp)
    ensures forall j :: i <= j < |engine| && (f < 0 || j < f) ==> j in taken || !Matches(engine[j], exp)
    decreases |engine| - i
  {
    if i == |engine| then -1
    else if i !in taken && Matches(engine[i], exp) then i
    else FirstFree(engine, taken, exp, i + 1)
  }

  /** For each expected finding, in order, the engine finding it gets, or -1. */
  function Pairs(engine: seq<Finding>, expected: seq<Finding>): (p: seq<int>)
    ensures |p| == |expected|
  {
    if |expected| == 0 then []
    else
      var before := Pairs(engine, expected[..|expected| - 1]);
      before + [FirstFree(engine, Taken(before), expected[|expected| - 1], 0)]
  }

  function Taken(p: seq<int>): set<int> {
    set f | f in p && f >= 0
  }

  function MatchedExpected(p: seq<int>): set<int> {
    set e | 0 <= e < |p| && p[e] >= 0
  }

  /** A valid pairing, greedy or not: partners meet their expectations and are not shared. */
  ghost predicate ValidPairing(engine: seq<Finding>, expected: seq<Finding>, p: seq<int>) {
    && |p| == |expected|
    && (forall e :: 0 <= e < |p| ==> -1 <= p[e] < |engine|)
    && (forall e :: 0 <= e < |p| && p[e] >= 0 ==> Matches(engine[p[e]], expected[e]))
    && (forall d, e :: 0 <= d < e < |p| && p[d] >= 0 ==> p[d] != p[e])
  }

  lemma {:induction false} PairsAreValid(engine: seq<Finding>, expected: seq<Finding>)
    ensures ValidPairing(engine, expected, Pairs(engine, expected))
  {
    if |expected| > 0 {
      var init := expected[..|expected| - 1];
      PairsAreValid(engine, init);
      PairingGrows(engine, expected, Pairs(engine, init));
    }
  }

  lemma PairingGrows(engine: seq<Finding>, expected: seq<Finding>, before: seq<int>)
    requires |expected| > 0 && ValidPairing(engine, expected[..|expected| - 1], before)
    ensures ValidPairing(engine, expected, before + [FirstFree(engine, Taken(before), expected[|expected| - 1], 0)])
  {
    var f := FirstFree(engine, Taken(before), expected[|expected| - 1], 0);
    forall d | 0 <= d < |before| && before[d] >= 0 ensures before[d] != f {
      assert before[d] in Taken(before);
    }
  }

  /** Nothing is left over on both sides that could still be paired. */
  lemma {:induction false} PairsAreMaximal(engine: seq<Finding>, expected: seq<Finding>, e: nat, f: nat)
    requires e < |expected| && f < |engine| && Matches(engine[f], expected[e])
    ensures Pairs(engine, expected)[e] >= 0 || f in Taken(Pairs(engine, expected))
    decreases |expected|
  {
    var init := expected[..|expected| - 1];
    var before := Pairs(engine, init);
    assert Taken(before) <= Taken(Pairs(engine, expected));
    if e < |init| {
      PairsAreMaximal(engine, init, e, f);
    }
  }

  // ---------------------------------------------------------------- counting

  lemma AnyOf<T>(s: set<T>) returns (x: T)
    requires s != {}
    ensures x in s
  {
    x :| x in s;
  }

  lemma {:induction false} InjectionCount(s: set<int>, t: set<int>, p: seq<int>)
    requires forall e :: e in s ==> 0 <= e < |p| && p[e] in t
    requires forall d, e :: d in s && e in s && d != e ==> p[d] != p[e]
    ensures |s| <= |t|
    decreases |s|
  {
    if s != {} {
      var e := AnyOf(s);
      InjectionCount(s - {e}, t - {p[e]}, p);
    }
  }

  lemma {:induction false} TakenCount(p: seq<int>)
    requires forall d, e :: 0 <= d < e < |p| && p[d] >= 0 ==> p[d] != p[e]
    ensures |Taken(p)| == |MatchedExpected(p)|
  {
    if |p| == 0 {
      NoneTaken(p);
    } else {
      var init, last := p[..|p| - 1], p[|p| - 1];
      assert p == init + [last];
      TakenCount(init);
      TakenOneMore(init, last);
      assert last !in Taken(init);
      assert |init| !in MatchedExpected(init);
    }
  }

  lemma NoneTaken(p: seq<int>)
    requires |p| == 0
    ensures Taken(p) == {} && MatchedExpected(p) == {}
  {
    if Taken(p) != {} {
      var x := AnyOf(Taken(p));
    }
    if MatchedExpected(p) != {} {
      var x := AnyOf(MatchedExpected(p));
    }
  }

  /** The greedy pairing is at least half as large as any valid pairing. */
  lemma GreedyIsAtLeastHalf(engine: seq<Finding>, expected: seq<Finding>, other: seq<int>)
    requires ValidPairing(engine, expected, other)
    ensures 2 * |MatchedExpected(Pairs(engine, expected))| >= |MatchedExpected(other)|
  {
    var p := Pairs(engine, expected);
    PairsAreValid(engine, expected);
    TakenCount(p);
    var all := MatchedExpected(other);
    var kept := MatchedExpected(p) * all;
    var lost := all - kept;
    forall e | e in lost ensures other[e] in Taken(p) {
      PairsAreMaximal(engine, expected, e, other[e]);
    }
    InjectionCount(lost, Taken(p), other);
    assert all == kept + lost;
    SubsetCount(kept, MatchedExpected(p));
  }

  // ---------------------------------------------------------------- the scorer

  datatype Score = Score(tp: nat, fp: nat, fn: nat, precision: real, recall: real, f1: real,
                         fpFindings: seq<Finding>, fnFindings: seq<Finding>)

  /** The findings of the list whose positions are not in `taken`. */
  function Unmatched(findings: seq<Finding>, taken: set<int>, i: nat): seq<Finding>
    requires i <= |findings|
    decreases |findings| - i
  {
    if i == |findings| then []
    else (if i in taken then [] else [findings[i]]) + Unmatched(findings, taken, i + 1)
  }

  method ListUnmatched(findings: seq<Finding>, taken: set<int>) returns (out: seq<Finding>)
    ensures out == Unmatched(findings, taken, 0)
  {
    out := [];
    for i := 0 to |findings|
      invariant out + Unmatched(findings, taken, i) == Unmatched(findings, taken, 0)
    {
      if i !in taken {
        out := out + [findings[i]];
      }
    }
  }

  /** Precision and recall are the shares of the two wholes that are paired, 1 where there is nothing to pair;
      f1 is twice the pairs over both wholes together. */
  ghost predicate Measured(tp: nat, fp: nat, fn: nat, precision: real, recall: real, f1: real) {
    && precision * (tp + fp) as real == tp as real && (tp + fp == 0 ==> precision == 1.0)
    && recall * (tp + fn) as real == tp as real && (tp + fn == 0 ==> recall == 1.0)
    && f1 * (2 * tp + fp + fn) as real == 2.0 * tp as real && (tp + fp + fn == 0 ==> f1 == 1.0)
  }

  method Measure(tp: nat, fp: nat, fn: nat) returns (precision: real, recall: real, f1: real)
    ensures Measured(tp, fp, fn, precision, recall, f1)
  {
    precision := Ratio(tp, tp + fp);
    recall := Ratio(tp, tp + fn);
    f1 := Harmonic(precision, recall);
    RatiosMean(tp, tp + fp, tp + fn);
  }

  method ScoreFixture(engine: seq<Finding>, expected: seq<Finding>) returns (score: Score)
    ensures score.tp == |MatchedExpected(Pairs(engine, expected))|
    ensures score.tp + score.fn == |expected| && score.tp + score.fp == |engine|
    ensures score.fpFindings == Unmatched(engine, Taken(Pairs(engine, expected)), 0)
    ensures score.fnFindings == Unmatched(expected, MatchedExpected(Pairs(engine, expected)), 0)
    ensures Measured(score.tp, score.fp, score.fn, score.precision, score.recall, score.f1)
  {
    var matchedEngine, matchedExpected := MatchAll(engine, expected);
    ghost var p := Pairs(engine, expected);
    PairsAreValid(engine, expected);
    TakenCount(p);
    CountWithin(matchedExpected, |expected|);
    CountWithin(matchedEngine, |engine|);
    var tp := |matchedExpected|;
    var fp := |engine| - |matchedEngine|;
    var fn := |expected| - tp;
    var precision, recall, f1 := Measure(tp, fp, fn);
    var fpFindings := ListUnmatched(engine, matchedEngine);
    var fnFindings := ListUnmatched(expected, matchedExpected);
    score := Score(tp, fp, fn, precision, recall, f1, fpFindings, fnFindings);
  }

  /** The two matched sets, each expected finding taking the first free engine finding that meets it. */
  method MatchAll(engine: seq<Finding>, expected: seq<Finding>) returns (matchedEngine: set<int>, matchedExpected: set<int>)
    ensures matchedEngine == Taken(Pairs(engine, expected))
    ensures matchedExpected == MatchedExpected(Pairs(engine, expected))
  {
    matchedEngine, matchedExpected := {}, {};
    NoneTaken(Pairs(engine, expected[..0]));
    for ei := 0 to |expected|
      invariant matchedEngine == Taken(Pairs(engine, expected[..ei]))
      invariant matchedExpected == MatchedExpected(Pairs(engine, expected[..ei]))
    {
      var found := FindFirst(engine, matchedEngine, expected[ei]);
      PairsOneMore(engine, expected, ei);
      TakenOneMore(Pairs(engine, expected[..ei]), found);
      if found >= 0 {
        matchedEngine := matchedEngine + {found};
        matchedExpected := matchedExpected + {ei};
      }
    }
    assert expected[..|expected|] == expected;
  }

  /** The inner scan: the first free engine finding that meets `exp`. */
  method FindFirst(engine: seq<Finding>, taken: set<int>, exp: Finding) returns (found: int)
    ensures found == FirstFree(engine, taken, exp, 0)
  {
    for fi := 0 to |engine|
      invariant FirstFree(engine, taken, exp, 0) == FirstFree(engine, taken, exp, fi)
    {
      if fi in taken {
        continue;
      }
      if Matches(engine[fi], exp) {
        return fi;
      }
    }
    return -1;
  }

  lemma PairsOneMore(engine: seq<Finding>, expected: seq<Finding>, i: nat)
    requires i < |expected|
    ensures Pairs(engine, expected[..i + 1]) ==
            Pairs(engine, expected[..i]) + [FirstFree(engine, Taken(Pairs(engine, expected[..i])), expected[i], 0)]
    ensures |Pairs(engine, expected[..i])| == i
  {
    assert expected[..i + 1][..i] == expected[..i];
  }

  function Ratio(part: nat, whole: nat): real {
    if whole > 0 then part as real / whole as real else 1.0
  }

  function Harmonic(precision: real, recall: real): real {
    if precision + recall > 0.0 then 2.0 * precision * recall / (precision + recall) else 0.0
  }

  lemma RatioOfWhole(part: nat, whole: nat)
    ensures Ratio(part, whole) * whole as real == if whole > 0 then part as real else 0.0
    ensures Ratio(part, whole) >= 0.0 && (part > 0 ==> Ratio(part, whole) > 0.0) && (part == 0 && whole > 0 ==> Ratio(part, whole) == 0.0)
  {
  }

  /** The harmonic mean of the two ratios is twice the common part over the two wholes. */
  lemma RatiosMean(tp: nat, m: nat, n: nat)
    requires tp <= m && tp <= n
    ensures Harmonic(Ratio(tp, m), Ratio(tp, n)) * (m + n) as real == 2.0 * tp as real
    ensures Ratio(tp, m) * m as real == tp as real && Ratio(tp, n) * n as real == tp as real
  {
    RatioOfWhole(tp, m);
    RatioOfWhole(tp, n);
    if tp > 0 {
      HarmonicOf(Ratio(tp, m), Ratio(tp, n), tp as real, m as real, n as real);
    } else {
      MeanOfNothing(m, n);
    }
  }

  lemma MeanOfNothing(m: nat, n: nat)
    ensures Harmonic(Ratio(0, m), Ratio(0, n)) * (m + n) as real == 0.0
  {
    RatioOfWhole(0, m);
    RatioOfWhole(0, n);
    if m > 0 {
      TimesZero(Ratio(0, n));
    } else if n > 0 {
      TimesZero(Ratio(0, m));
    }
  }

  lemma TimesZero(x: real)
    ensures Harmonic(0.0, x) == 0.0 && Harmonic(x, 0.0) == 0.0
  {
    assert 2.0 * x * 0.0 == 0.0 && 2.0 * 0.0 * x == 0.0;
  }

  lemma HarmonicOf(p: real, r: real, t: real, m: real, n: real)
    requires p > 0.0 && r > 0.0 && t > 0.0 && m > 0.0 && n > 0.0 && p * m == t && r * n == t
    ensures Harmonic(p, r) * (m + n) == 2.0 * t
  {
    var h, x := Harmonic(p, r), p * r;
    assert h * (p + r) == 2.0 * x;
    assert x * (m + n) == t * (p + r);
    assert (h * (m + n)) * (p + r) == (2.0 * t) * (p + r);
  }

  lemma TakenOneMore(p: seq<int>, f: int)
    ensures Taken(p + [f]) == Taken(p) + (if f >= 0 then {f} else {})
    ensures MatchedExpected(p + [f]) == MatchedExpected(p) + (if f >= 0 then {|p|} else {})
  {
  }

  lemma {:induction false} CountWithin(s: set<int>, n: nat)
    requires forall x :: x in s ==> 0 <= x < n
    ensures |s| <= n
  {
    if n == 0 {
      if s != {} {
        var x := AnyOf(s);
      }
    } else {
      CountWithin(s - {n - 1}, n - 1);
      SubsetCount(s, (s - {n - 1}) + {n - 1});
    }
  }

  // ---------------------------------------------------------------- pairing as taking from a pool

  predicate Has(pool: seq<Finding>, exp: Finding) {
    exists f :: f in pool && Matches(f, exp)
  }

  /** The pool without its first finding that meets `exp`. */
  function TakeFirst(pool: seq<Finding>, exp: Finding): seq<Finding> {
    if |pool| == 0 then []
    else if Matches(pool[0], exp) then pool[1..]
    else [pool[0]] + TakeFirst(pool[1..], exp)
  }

  lemma TakeFirstCons(first: Finding, rest: seq<Finding>, exp: Finding)
    ensures TakeFirst([first] + rest, exp) == if Matches(first, exp) then rest else [first] + TakeFirst(rest, exp)
    ensures Has([first] + rest, exp) <==> Matches(first, exp) || Has(rest, exp)
  {
    assert ([first] + rest)[1..] == rest;
    assert first in [first] + rest;
    forall f | f in rest ensures f in [first] + rest {}
  }

  function PoolAfter(pool: seq<Finding>, expected: seq<Finding>): seq<Finding> {
    if |expected| == 0 then pool
    else TakeFirst(PoolAfter(pool, expected[..|expected| - 1]), expected[|expected| - 1])
  }

  /** How many of the expected findings, in order, find a partner in the pool. */
  function Greedy(pool: seq<Finding>, expected: seq<Finding>): nat {
    if |expected| == 0 then 0
    else
      var init, last := expected[..|expected| - 1], expected[|expected| - 1];
      Greedy(pool, init) + if Has(PoolAfter(pool, init), last) then 1 else 0
  }

  lemma {:induction false} UnmatchedAbove(engine: seq<Finding>, taken: set<int>, f: int, i: nat)
    requires f < i <= |engine|
    ensures Unmatched(engine, taken + {f}, i) == Unmatched(engine, taken, i)
    decreases |engine| - i
  {
    if i < |engine| {
      UnmatchedAbove(engine, taken, f, i + 1);
    }
  }

  /** From place `i` on, taking the first free match by index is taking the first match from the pool. */
  ghost predicate TakesFirst(engine: seq<Finding>, taken: set<int>, exp: Finding, i: nat)
    requires i <= |engine|
  {
    var f, pool := FirstFree(engine, taken, exp, i), Unmatched(engine, taken, i);
    && (f >= 0 <==> Has(pool, exp))
    && TakeFirst(pool, exp) == Unmatched(engine, if f >= 0 then taken + {f} else taken, i)
  }

  lemma {:induction false} FirstFreeTakesFirst(engine: seq<Finding>, taken: set<int>, exp: Finding, i: nat)
    requires i <= |engine|
    ensures TakesFirst(engine, taken, exp, i)
    decreases |engine| - i
  {
    if i < |engine| {
      FirstFreeTakesFirst(engine, taken, exp, i + 1);
      if i in taken {
        TakenIsSkipped(engine, taken, exp, i);
      } else if Matches(engine[i], exp) {
        FreeMatchIsTaken(engine, taken, exp, i);
      } else {
        OthersAreSkipped(engine, taken, exp, i);
      }
    }
  }

  lemma TakenIsSkipped(engine: seq<Finding>, taken: set<int>, exp: Finding, i: nat)
    requires i < |engine| && i in taken && TakesFirst(engine, taken, exp, i + 1)
    ensures TakesFirst(engine, taken, exp, i)
  {
    assert Unmatched(engine, taken, i) == Unmatched(engine, taken, i + 1);
  }

  lemma FreeMatchIsTaken(engine: seq<Finding>, taken: set<int>, exp: Finding, i: nat)
    requires i < |engine| && i !in taken && Matches(engine[i], exp)
    ensures TakesFirst(engine, taken, exp, i)
  {
    TakeFirstCons(engine[i], Unmatched(engine, taken, i + 1), exp);
    UnmatchedAbove(engine, taken, i, i + 1);
  }

  lemma OthersAreSkipped(engine: seq<Finding>, taken: set<int>, exp: Finding, i: nat)
    requires i < |engine| && i !in taken && !Matches(engine[i], exp) && TakesFirst(engine, taken, exp, i + 1)
    ensures TakesFirst(engine, taken, exp, i)
  {
    TakeFirstCons(engine[i], Unmatched(engine, taken, i + 1), exp);
  }

  lemma {:induction false} NothingTaken(engine: seq<Finding>, i: nat)
    requires i <= |engine|
    ensures Unmatched(engine, {}, i) == engine[i..]
    decreases |engine| - i
  {
    if i < |engine| {
      NothingTaken(engine, i + 1);
    }
  }

  /** The index pairing and the shrinking pool are the same process. */
  lemma {:induction false} PairsAreGreedy(engine: seq<Finding>, expected: seq<Finding>)
    ensures PoolAfter(engine, expected) == Unmatched(engine, Taken(Pairs(engine, expected)), 0)
    ensures |MatchedExpected(Pairs(engine, expected))| == Greedy(engine, expected)
  {
    if |expected| == 0 {
      NoneTaken(Pairs(engine, expected));
      NothingTaken(engine, 0);
    } else {
      var init, last := expected[..|expected| - 1], expected[|expected| - 1];
      PairsAreGreedy(engine, init);
      var before := Pairs(engine, init);
      var f := FirstFree(engine, Taken(before), last, 0);
      TakenOneMore(before, f);
      FirstFreeTakesFirst(engine, Taken(before), last, 0);
      assert |before| !in MatchedExpected(before);
    }
  }

  // ---------------------------------------------------------------- severity groups

  datatype Group = HighCritical | MediumGroup | Remaining

  function GroupOf(f: Finding): Group {
    match f.severity
    case Critical => HighCritical
    case High => HighCritical
    case Medium => MediumGroup
    case Other(_) => Remaining
  }

  function Only(fs: seq<Finding>, g: Group): seq<Finding> {
    if |fs| == 0 then []
    else
      var rest := Only(fs[1..], g);
      if GroupOf(fs[0]) == g then [fs[0]] + rest else rest
  }

  /** The first group takes the critical and the high findings, the second the medium ones, the third all others. */
  lemma {:induction false} GroupsBySeverity(fs: seq<Finding>, f: Finding)
    ensures f in Only(fs, HighCritical) <==> f in fs && f.severity in {Critical, High}
    ensures f in Only(fs, MediumGroup) <==> f in fs && f.severity == Medium
    ensures f in Only(fs, Remaining) <==> f in fs && f.severity.Other?
  {
    if |fs| > 0 {
      assert fs == [fs[0]] + fs[1..];
      GroupsBySeverity(fs[1..], f);
    }
  }

  lemma OnlyCons(first: Finding, rest: seq<Finding>, g: Group)
    ensures Only([first] + rest, g) == if GroupOf(first) == g then [first] + Only(rest, g) else Only(rest, g)
  {
    assert ([first] + rest)[1..] == rest;
  }

  lemma ConsAppend(x: Finding, a: seq<Finding>, b: seq<Finding>)
    ensures [x] + (a + b) == [x] + a + b
  {
  }

  lemma {:induction false} OnlyAppend(a: seq<Finding>, b: seq<Finding>, g: Group)
    ensures Only(a + b, g) == Only(a, g) + Only(b, g)
  {
    if |a| == 0 {
      assert a + b == b;
    } else {
      OnlyAppend(a[1..], b, g);
      assert (a + b)[0] == a[0] && (a + b)[1..] == a[1..] + b;
      ConsAppend(a[0], Only(a[1..], g), Only(b, g));
    }
  }

  lemma OnlyLast(fs: seq<Finding>, g: Group)
    requires |fs| > 0
    ensures var init, last := fs[..|fs| - 1], fs[|fs| - 1];
            Only(fs, g) == if GroupOf(last) == g then Only(init, g) + [last] else Only(init, g)
  {
    var init, last := fs[..|fs| - 1], fs[|fs| - 1];
    assert fs == init + [last];
    OnlyAppend(init, [last], g);
    assert [last][1..] == [];
  }

  /** An expected finding that names its severity takes within its group and leaves the others alone. */
  lemma {:induction false} TakesWithinGroup(pool: seq<Finding>, exp: Finding, g: Group)
    requires Named(exp.severity)
    ensures Only(TakeFirst(pool, exp), g) ==
            if GroupOf(exp) == g then TakeFirst(Only(pool, g), exp) else Only(pool, g)
    ensures GroupOf(exp) == g ==> (Has(pool, exp) <==> Has(Only(pool, g), exp))
  {
    if |pool| > 0 {
      var first, rest := pool[0], pool[1..];
      assert pool == [first] + rest;
      TakesWithinGroup(rest, exp, g);
      TakeFirstCons(first, rest, exp);
      OnlyCons(first, rest, g);
      OnlyCons(first, TakeFirst(rest, exp), g);
      TakeFirstCons(first, Only(rest, g), exp);
    }
  }

  ghost predicate AllNamed(expected: seq<Finding>) {
    forall e :: e in expected ==> Named(e.severity)
  }

  lemma {:induction false} PoolsSplit(pool: seq<Finding>, expected: seq<Finding>, g: Group)
    requires AllNamed(expected)
    ensures Only(PoolAfter(pool, expected), g) == PoolAfter(Only(pool, g), Only(expected, g))
  {
    if |expected| > 0 {
      var init, last := expected[..|expected| - 1], expected[|expected| - 1];
      PoolsSplit(pool, init, g);
      TakesWithinGroup(PoolAfter(pool, init), last, g);
      OnlyLast(expected, g);
      if GroupOf(last) == g {
        assert (Only(init, g) + [last])[..|Only(init, g)|] == Only(init, g);
      }
    }
  }

  /** Partners found by scoring the three severity groups one by one. */
  function ByGroups(pool: seq<Finding>, expected: seq<Finding>): nat {
    Greedy(Only(pool, HighCritical), Only(expected, HighCritical))
    + Greedy(Only(pool, MediumGroup), Only(expected, MediumGroup))
    + Greedy(Only(pool, Remaining), Only(expected, Remaining))
  }

  lemma GreedyOfGroup(pool: seq<Finding>, expected: seq<Finding>, g: Group)
    requires AllNamed(expected) && |expected| > 0
    ensures var init, last := expected[..|expected| - 1], expected[|expected| - 1];
            Greedy(Only(pool, g), Only(expected, g)) ==
            Greedy(Only(pool, g), Only(init, g))
            + if GroupOf(last) == g && Has(PoolAfter(pool, init), last) then 1 else 0
  {
    var init, last := expected[..|expected| - 1], expected[|expected| - 1];
    OnlyLast(expected, g);
    if GroupOf(last) == g {
      assert (Only(init, g) + [last])[..|Only(init, g)|] == Only(init, g);
      PoolsSplit(pool, init, g);
      TakesWithinGroup(PoolAfter(pool, init), last, g);
    }
  }

  lemma {:induction false} GroupsAddUp(pool: seq<Finding>, expected: seq<Finding>)
    requires AllNamed(expected)
    ensures Greedy(pool, expected) == ByGroups(pool, expected)
  {
    if |expected| > 0 {
      GroupsAddUp(pool, expected[..|expected| - 1]);
      GreedyOfGroup(pool, expected, HighCritical);
      GreedyOfGroup(pool, expected, MediumGroup);
      GreedyOfGroup(pool, expected, Remaining);
    }
  }

  // ---------------------------------------------------------------- exactly when the groups add up

  function Copies(f: Finding, n: nat): seq<Finding> {
    seq(n, _ => f)
  }

  function CountMatching(f: Finding, expected: seq<Finding>): nat {
    if |expected| == 0 then 0
    else CountMatching(f, expected[..|expected| - 1]) + if Matches(f, expected[|expected| - 1]) then 1 else 0
  }

  lemma CountLast(f: Finding, init: seq<Finding>, last: Finding)
    ensures CountMatching(f, init + [last]) == CountMatching(f, init) + if Matches(f, last) then 1 else 0
  {
    assert (init + [last])[..|init|] == init;
  }

  lemma {:induction false} EnoughCopies(f: Finding, n: nat, expected: seq<Finding>)
    requires |expected| <= n
    ensures CountMatching(f, expected) <= |expected|
    ensures PoolAfter(Copies(f, n), expected) == Copies(f, n - CountMatching(f, expected))
    ensures Greedy(Copies(f, n), expected) == CountMatching(f, expected)
  {
    if |expected| == 0 {
      assert PoolAfter(Copies(f, n), expected) == Copies(f, n);
    } else {
      var init, last := expected[..|expected| - 1], expected[|expected| - 1];
      EnoughCopies(f, n, init);
      var m := n - CountMatching(f, init);
      TakeCopy(f, m, last);
      HasCopy(f, m, last);
      assert PoolAfter(Copies(f, n), expected) == TakeFirst(Copies(f, m), last);
    }
  }

  lemma HasCopy(f: Finding, m: nat, exp: Finding)
    ensures Has(Copies(f, m), exp) <==> m > 0 && Matches(f, exp)
  {
    if m > 0 {
      assert Copies(f, m)[0] == f;
    }
  }

  lemma {:induction false} TakeCopy(f: Finding, m: nat, exp: Finding)
    ensures TakeFirst(Copies(f, m), exp) == if m > 0 && Matches(f, exp) then Copies(f, m - 1) else Copies(f, m)
  {
    if m > 0 {
      assert Copies(f, m)[1..] == Copies(f, m - 1);
      if !Matches(f, exp) {
        TakeCopy(f, m - 1, exp);
        assert [f] + Copies(f, m - 1) == Copies(f, m);
      }
    }
  }

  lemma {:induction false} OnlyCopies(f: Finding, m: nat, g: Group)
    ensures Only(Copies(f, m), g) == if GroupOf(f) == g then Copies(f, m) else []
  {
    if m > 0 {
      assert Copies(f, m)[1..] == Copies(f, m - 1);
      OnlyCopies(f, m - 1, g);
      assert [f] + Copies(f, m - 1) == Copies(f, m);
    }
  }

  lemma {:induction false} EmptyPool(expected: seq<Finding>)
    ensures Greedy([], expected) == 0 && PoolAfter([], expected) == []
  {
    if |expected| > 0 {
      EmptyPool(expected[..|expected| - 1]);
    }
  }

  lemma {:induction false} GroupCountsLess(f: Finding, expected: seq<Finding>, g: Group)
    ensures CountMatching(f, Only(expected, g)) <= CountMatching(f, expected)
    ensures |Only(expected, g)| <= |expected|
    ensures (exists e :: e in expected && Matches(f, e) && GroupOf(e) != g) ==>
              CountMatching(f, Only(expected, g)) < CountMatching(f, expected)
  {
    if |expected| > 0 {
      var init, last := expected[..|expected| - 1], expected[|expected| - 1];
      assert expected == init + [last];
      GroupCountsLess(f, init, g);
      OnlyLast(expected, g);
      CountLast(f, init, last);
      CountLast(f, Only(init, g), last);
    }
  }

  /** An answer key that leaves a severity open is scored differently as a whole and by groups, for
      some engine output: enough High findings that meet its open entry. */
  lemma OpenSeverityBreaksGroups(expected: seq<Finding>, e: Finding)
    requires e in expected && !Named(e.severity)
    ensures exists engine :: Greedy(engine, expected) > ByGroups(engine, expected)
  {
    var f := Finding(e.kind, High, e.resource, e.evidence);
    var n := |expected|;
    var engine := Copies(f, n);
    assert IsAt(e.kind, e.kind, 0) && IsAt(e.evidence, e.evidence, 0);
    assert Matches(f, e) && GroupOf(e) == Remaining;
    EnoughCopies(f, n, expected);
    OnlyCopies(f, n, HighCritical);
    OnlyCopies(f, n, MediumGroup);
    OnlyCopies(f, n, Remaining);
    GroupCountsLess(f, expected, HighCritical);
    EnoughCopies(f, n, Only(expected, HighCritical));
    EmptyPool(Only(expected, MediumGroup));
    EmptyPool(Only(expected, Remaining));
  }

  /** Scoring by severity group adds up to the overall score, whatever the engine reports, exactly when
      every expected finding names its severity. */
  lemma GroupsAddUpIffAllNamed(expected: seq<Finding>)
    ensures AllNamed(expected) <==> forall engine :: Greedy(engine, expected) == ByGroups(engine, expected)
  {
    if AllNamed(expected) {
      forall engine ensures Greedy(engine, expected) == ByGroups(engine, expected) {
        GroupsAddUp(engine, expected);
      }
    } else {
      var e :| e in expected && !Named(e.severity);
      OpenSeverityBreaksGroups(expected, e);
    }
  }

  // ---------------------------------------------------------------- aggregation over fixtures

  datatype Fixture = Fixture(engine: seq<Finding>, expected: seq<Finding>)

  datatype Tally = Tally(tp: nat, fp: nat, fn: nat)

  function Plus(a: Tally, b: Tally): Tally {
    Tally(a.tp + b.tp, a.fp + b.fp, a.fn + b.fn)
  }

  lemma GreedyIsBounded(engine: seq<Finding>, expected: seq<Finding>)
    ensures Greedy(engine, expected) <= |expected| && Greedy(engine, expected) <= |engine|
  {
    var p := Pairs(engine, expected);
    PairsAreValid(engine, expected);
    PairsAreGreedy(engine, expected);
    TakenCount(p);
    CountWithin(MatchedExpected(p), |expected|);
    CountWithin(Taken(p), |engine|);
  }

  function TallyOf(f: Fixture): Tally {
    GreedyIsBounded(f.engine, f.expected);
    var tp := Greedy(f.engine, f.expected);
    Tally(tp, |f.engine| - tp, |f.expected| - tp)
  }

  function OfGroup(f: Fixture, g: Group): Fixture {
    Fixture(Only(f.engine, g), Only(f.expected, g))
  }

  function Overall(fixtures: seq<Fixture>): Tally {
    if |fixtures| == 0 then Tally(0, 0, 0)
    else Plus(Overall(fixtures[..|fixtures| - 1]), TallyOf(fixtures[|fixtures| - 1]))
  }

  function GroupTotal(fixtures: seq<Fixture>, g: Group): Tally {
    if |fixtures| == 0 then Tally(0, 0, 0)
    else Plus(GroupTotal(fixtures[..|fixtures| - 1], g), TallyOf(OfGroup(fixtures[|fixtures| - 1], g)))
  }

  method ScoreTally(engine: seq<Finding>, expected: seq<Finding>) returns (t: Tally)
    ensures t == TallyOf(Fixture(engine, expected))
  {
    var score := ScoreFixture(engine, expected);
    PairsAreGreedy(engine, expected);
    t := Tally(score.tp, score.fp, score.fn);
  }

  method ListOnly(fs: seq<Finding>, g: Group) returns (out: seq<Finding>)
    ensures out == Only(fs, g)
  {
    out := [];
    for i := 0 to |fs|
      invariant out + Only(fs[i..], g) == Only(fs, g)
    {
      assert fs[i..][1..] == fs[i + 1..];
      if GroupOf(fs[i]) == g {
        AppendCons(out, fs[i], Only(fs[i + 1..], g));
        out := out + [fs[i]];
      }
    }
  }

  lemma AppendCons(a: seq<Finding>, x: Finding, b: seq<Finding>)
    ensures a + ([x] + b) == a + [x] + b
  {
  }

  /** The counters behind the gates: overall, and re-scored for the two graded groups. */
  method Aggregate(fixtures: seq<Fixture>) returns (overall: Tally, highCritical: Tally, medium: Tally)
    ensures overall == Overall(fixtures)
    ensures highCritical == GroupTotal(fixtures, HighCritical)
    ensures medium == GroupTotal(fixtures, MediumGroup)
  {
    overall, highCritical, medium := Tally(0, 0, 0), Tally(0, 0, 0), Tally(0, 0, 0);
    for i := 0 to |fixtures|
      invariant overall == Overall(fixtures[..i])
      invariant highCritical == GroupTotal(fixtures[..i], HighCritical)
      invariant medium == GroupTotal(fixtures[..i], MediumGroup)
    {
      assert fixtures[..i + 1][..i] == fixtures[..i];
      var f := fixtures[i];
      var t := ScoreTally(f.engine, f.expected);
      overall := Plus(overall, t);
      var engine := ListOnly(f.engine, HighCritical);
      var expected := ListOnly(f.expected, HighCritical);
      t := ScoreTally(engine, expected);
      highCritical := Plus(highCritical, t);
      engine := ListOnly(f.engine, MediumGroup);
      expected := ListOnly(f.expected, MediumGroup);
      t := ScoreTally(engine, expected);
      medium := Plus(medium, t);
    }
    assert fixtures[..|fixtures|] == fixtures;
  }

  /** What one more fixture adds to the counters: as true positives the expected findings that get a partner, and
      what is left on either side as false positives and false negatives. */
  lemma OneMoreFixture(before: seq<Fixture>, f: Fixture)
    ensures Overall([]) == Tally(0, 0, 0)
    ensures var t, u, matched := Overall(before + [f]), Overall(before), |MatchedExpected(Pairs(f.engine, f.expected))|;
            && t.tp == u.tp + matched
            && t.fp + matched == u.fp + |f.engine|
            && t.fn + matched == u.fn + |f.expected|
  {
    PairsAreGreedy(f.engine, f.expected);
    assert (before + [f])[..|before|] == before;
  }

  /** A group is counted as if its findings were all there are. */
  lemma {:induction false} GroupIsRescored(fixtures: seq<Fixture>, g: Group)
    ensures GroupTotal(fixtures, g) == Overall(seq(|fixtures|, i requires 0 <= i < |fixtures| =>
                                                     Fixture(Only(fixtures[i].engine, g), Only(fixtures[i].expected, g))))
  {
    if |fixtures| > 0 {
      var last := |fixtures| - 1;
      var all := seq(|fixtures|, i requires 0 <= i < |fixtures| =>
                       Fixture(Only(fixtures[i].engine, g), Only(fixtures[i].expected, g)));
      GroupIsRescored(fixtures[..last], g);
      assert all[..last] == seq(last, i requires 0 <= i < last =>
                                  Fixture(Only(fixtures[..last][i].engine, g), Only(fixtures[..last][i].expected, g)));
    }
  }

  lemma {:induction false} GroupsPartition(fs: seq<Finding>)
    ensures |Only(fs, HighCritical)| + |Only(fs, MediumGroup)| + |Only(fs, Remaining)| == |fs|
  {
    if |fs| > 0 {
      GroupsPartition(fs[1..]);
    }
  }

  lemma FixtureAddsUp(f: Fixture)
    requires AllNamed(f.expected)
    ensures TallyOf(f) ==
            Plus(Plus(TallyOf(OfGroup(f, HighCritical)), TallyOf(OfGroup(f, MediumGroup))), TallyOf(OfGroup(f, Remaining)))
  {
    GroupsAddUp(f.engine, f.expected);
    GroupsPartition(f.engine);
    GroupsPartition(f.expected);
  }

  ghost predicate AllKeysNamed(fixtures: seq<Fixture>) {
    forall f :: f in fixtures ==> AllNamed(f.expected)
  }

  function GroupsTotal(fixtures: seq<Fixture>): Tally {
    Plus(Plus(GroupTotal(fixtures, HighCritical), GroupTotal(fixtures, MediumGroup)), GroupTotal(fixtures, Remaining))
  }

  /** When the answer keys name every severity, the graded groups and the rest account for every true
      positive, false positive and false negative of the overall count. */
  lemma {:induction false} AggregatesAddUp(fixtures: seq<Fixture>)
    requires AllKeysNamed(fixtures)
    ensures Overall(fixtures) == GroupsTotal(fixtures)
    decreases |fixtures|
  {
    if |fixtures| == 0 {
      assert Overall(fixtures) == GroupsTotal(fixtures);
    } else {
      InitNamed(fixtures);
      AggregatesAddUp(fixtures[..|fixtures| - 1]);
      LastAddsUp(fixtures);
    }
  }

  lemma InitNamed(fixtures: seq<Fixture>)
    requires AllKeysNamed(fixtures) && |fixtures| > 0
    ensures AllKeysNamed(fixtures[..|fixtures| - 1]) && AllNamed(fixtures[|fixtures| - 1].expected)
  {
  }

  lemma LastAddsUp(fixtures: seq<Fixture>)
    requires |fixtures| > 0 && AllNamed(fixtures[|fixtures| - 1].expected)
    requires Overall(fixtures[..|fixtures| - 1]) == GroupsTotal(fixtures[..|fixtures| - 1])
    ensures Overall(fixtures) == GroupsTotal(fixtures)
  {
    var before, f := fixtures[..|fixtures| - 1], fixtures[|fixtures| - 1];
    FixtureAddsUp(f);
    Rearrange(GroupTotal(before, HighCritical), GroupTotal(before, MediumGroup), GroupTotal(before, Remaining),
              TallyOf(OfGroup(f, HighCritical)), TallyOf(OfGroup(f, MediumGroup)), TallyOf(OfGroup(f, Remaining)));
  }

  lemma Rearrange(a: Tally, b: Tally, c: Tally, d: Tally, e: Tally, f: Tally)
    ensures Plus(Plus(Plus(a, b), c), Plus(Plus(d, e), f)) == Plus(Plus(Plus(a, d), Plus(b, e)), Plus(c, f))
  {
  }
}
