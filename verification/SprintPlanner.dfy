/** Greedy selection of backlog items in priority order within a capacity. */
module SprintPlanner {
  import opened Prelude
  import opened Ordering

  datatype BacklogItem = BacklogItem(key: string, priorityRank: int, storyPoints: int)

  datatype Question = VelocityUnavailable | AvailabilityUnavailable | BacklogExceedsCapacity

  datatype Recommendation = Recommendation(recommendedPoints: Option<int>, selected: seq<BacklogItem>,
                                           openQuestions: seq<Question>)

  predicate RankLe(a: BacklogItem, b: BacklogItem) {
    a.priorityRank <= b.priorityRank
  }

  /** Truncation toward zero. */
  function Truncate(x: real): int {
    if x >= 0.0 then x.Floor else -((-x).Floor)
  }

  function Capacity(velocity: int, availability: real): nat {
    var points := Truncate(velocity as real * availability);
    if points < 0 then 0 else points
  }

  function Points(items: seq<BacklogItem>): int {
    if |items| == 0 then 0 else Points(items[..|items| - 1]) + items[|items| - 1].storyPoints
  }

  /** Which items are selected, in order, and what capacity is left. */
  function Choice(items: seq<BacklogItem>, capacity: int): (c: seq<bool>)
    ensures |c| == |items|
  {
    if |items| == 0 then []
    else
      var before := Choice(items[..|items| - 1], capacity);
      before + [items[|items| - 1].storyPoints <= capacity - Spent(items[..|items| - 1], before)]
  }

  /** Points of the items a choice takes. */
  function Spent(items: seq<BacklogItem>, c: seq<bool>): int
    requires |c| == |items|
  {
    if |items| == 0 then 0
    else Spent(items[..|items| - 1], c[..|c| - 1]) + if c[|c| - 1] then items[|items| - 1].storyPoints else 0
  }

  function Chosen(items: seq<BacklogItem>, c: seq<bool>): seq<BacklogItem>
    requires |c| == |items|
  {
    if |items| == 0 then []
    else Chosen(items[..|items| - 1], c[..|c| - 1]) + if c[|c| - 1] then [items[|items| - 1]] else []
  }

  /** What a plan says of a backlog. */
  ghost predicate IsPlan(plan: Recommendation, backlog: seq<BacklogItem>, velocity: Option<int>, availability: Option<real>) {
    && (plan.recommendedPoints.Some? <==> velocity.Some? && availability.Some?)
    && (VelocityUnavailable in plan.openQuestions <==> velocity.None?)
    && (AvailabilityUnavailable in plan.openQuestions <==> availability.None?)
    && (plan.recommendedPoints.None? ==> plan.selected == [] && BacklogExceedsCapacity !in plan.openQuestions)
    && (plan.recommendedPoints.Some? ==>
          var capacity := Capacity(velocity.value, availability.value);
          var items := Sort(RankLe, backlog);
          && plan.recommendedPoints == Some(capacity)
          && plan.selected == Chosen(items, Choice(items, capacity))
          && (BacklogExceedsCapacity in plan.openQuestions <==> Points(backlog) > capacity))
  }

  method BuildPlan(backlog: seq<BacklogItem>, velocity: Option<int>, availability: Option<real>)
    returns (plan: Recommendation)
    ensures IsPlan(plan, backlog, velocity, availability)
  {
    var questions: seq<Question> := [];
    if velocity.None? {
      questions := questions + [VelocityUnavailable];
    }
    if availability.None? {
      questions := questions + [AvailabilityUnavailable];
    }
    if velocity.None? || availability.None? {
      return Recommendation(None, [], questions);
    }
    var capacity := Capacity(velocity.value, availability.value);
    var selected := Select(Sort(RankLe, backlog), capacity);
    var total := Total(backlog);
    if total > capacity {
      questions := questions + [BacklogExceedsCapacity];
    }
    plan := Recommendation(Some(capacity), selected, questions);
  }

  method Select(items: seq<BacklogItem>, capacity: nat) returns (selected: seq<BacklogItem>)
    ensures selected == Chosen(items, Choice(items, capacity))
  {
    var remaining: int := capacity;
    selected := [];
    for i := 0 to |items|
      invariant selected == Chosen(items[..i], Choice(items[..i], capacity))
      invariant remaining == capacity - Spent(items[..i], Choice(items[..i], capacity))
    {
      OneMoreItem(items, i, capacity);
      if items[i].storyPoints <= remaining {
        selected := selected + [items[i]];
        remaining := remaining - items[i].storyPoints;
      }
    }
    assert items[..|items|] == items;
  }

  method Total(backlog: seq<BacklogItem>) returns (total: int)
    ensures total == Points(backlog)
  {
    total := 0;
    for i := 0 to |backlog|
      invariant total == Points(backlog[..i])
    {
      assert backlog[..i + 1][..i] == backlog[..i];
      total := total + backlog[i].storyPoints;
    }
    assert backlog[..|backlog|] == backlog;
  }

  lemma OneMoreItem(items: seq<BacklogItem>, i: nat, capacity: int)
    requires i < |items|
    ensures var c := Choice(items[..i], capacity);
            var fits := items[i].storyPoints <= capacity - Spent(items[..i], c);
            && Choice(items[..i + 1], capacity) == c + [fits]
            && Spent(items[..i + 1], c + [fits]) == Spent(items[..i], c) + (if fits then items[i].storyPoints else 0)
            && Chosen(items[..i + 1], c + [fits]) == Chosen(items[..i], c) + (if fits then [items[i]] else [])
  {
    var c := Choice(items[..i], capacity);
    var fits := items[i].storyPoints <= capacity - Spent(items[..i], c);
    assert items[..i + 1][..i] == items[..i] && (c + [fits])[..i] == c;
  }

  // ---------------------------------------------------------------- what the choice is

  ghost predicate NonNegative(items: seq<BacklogItem>) {
    forall x :: x in items ==> x.storyPoints >= 0
  }

  /** A plan that keeps within the capacity at every item. */
  ghost predicate Feasible(items: seq<BacklogItem>, c: seq<bool>, capacity: int)
    requires |c| == |items|
  {
    Spent(items, c) <= capacity
  }

  /** The selection never exceeds the capacity, even with negative points in the backlog. */
  lemma {:induction false} ChoiceFits(items: seq<BacklogItem>, capacity: nat)
    ensures Spent(items, Choice(items, capacity)) <= capacity
  {
    if |items| > 0 {
      var init := items[..|items| - 1];
      ChoiceFits(init, capacity);
      var c := Choice(items, capacity);
      assert c[..|c| - 1] == Choice(init, capacity);
    }
  }

  lemma {:induction false} ChoiceOfPrefix(items: seq<BacklogItem>, capacity: int, i: nat)
    requires i <= |items|
    ensures Choice(items, capacity)[..i] == Choice(items[..i], capacity)
  {
    if i < |items| {
      var init := items[..|items| - 1];
      ChoiceOfPrefix(init, capacity, i);
      assert init[..i] == items[..i];
      var c := Choice(items, capacity);
      assert c[..|c| - 1] == Choice(init, capacity) && c[..i] == c[..|c| - 1][..i];
    } else {
      assert items[..i] == items;
    }
  }

  lemma {:induction false} SpentGrows(items: seq<BacklogItem>, c: seq<bool>, i: nat)
    requires |c| == |items| && i <= |items| && forall j :: i <= j < |items| ==> items[j].storyPoints >= 0
    ensures Spent(items[..i], c[..i]) <= Spent(items, c)
  {
    if i < |items| {
      var init := items[..|items| - 1];
      SpentGrows(init, c[..|c| - 1], i);
      assert init[..i] == items[..i] && c[..|c| - 1][..i] == c[..i];
    } else {
      assert items[..i] == items && c[..i] == c;
    }
  }

  /** An item is left out exactly when it does not fit what is left at its turn. */
  lemma ChosenIffFits(items: seq<BacklogItem>, capacity: int, i: nat)
    requires i < |items|
    ensures Choice(items, capacity)[i] <==>
            items[i].storyPoints <= capacity - Spent(items[..i], Choice(items, capacity)[..i])
  {
    ChoiceOfPrefix(items, capacity, i);
    ChoiceOfPrefix(items, capacity, i + 1);
    assert items[..i + 1][..i] == items[..i];
    assert Choice(items, capacity)[..i + 1][i] == Choice(items, capacity)[i];
  }

  /** So an item left out does not fit what finally remains, unless an item below it has negative points. */
  lemma {:induction false} LeftOutDoesNotFit(items: seq<BacklogItem>, capacity: nat, i: nat)
    requires i < |items| && !Choice(items, capacity)[i]
    requires forall j :: i < j < |items| ==> items[j].storyPoints >= 0
    ensures items[i].storyPoints > capacity - Spent(items, Choice(items, capacity))
  {
    var c := Choice(items, capacity);
    ChosenIffFits(items, capacity, i);
    SpentGrows(items, c, i + 1);
    assert items[..i + 1][..i] == items[..i] && c[..i + 1][..i] == c[..i];
  }

  /** No item left out fits what finally remains. */
  ghost predicate NothingMoreFits(items: seq<BacklogItem>, capacity: nat) {
    forall i :: 0 <= i < |items| && !Choice(items, capacity)[i] ==>
      items[i].storyPoints > capacity - Spent(items, Choice(items, capacity))
  }

  ghost predicate NonPositive(items: seq<BacklogItem>) {
    forall x :: x in items ==> x.storyPoints <= 0
  }

  /** The same items under other priorities. */
  ghost predicate Reprioritised(a: seq<BacklogItem>, b: seq<BacklogItem>) {
    |a| == |b| && forall i :: 0 <= i < |a| ==> a[i] == b[i].(priorityRank := a[i].priorityRank)
  }

  /** A backlog fills its capacity under all priorities and capacities exactly when no negative item
      stands beside a positive one. */
  lemma NothingMoreFitsIff(backlog: seq<BacklogItem>)
    ensures (forall b, capacity: nat :: Reprioritised(b, backlog) ==> NothingMoreFits(Sort(RankLe, b), capacity))
       <==> NonNegative(backlog) || NonPositive(backlog)
  {
    if NonNegative(backlog) || NonPositive(backlog) {
      forall b, capacity: nat | Reprioritised(b, backlog) ensures NothingMoreFits(Sort(RankLe, b), capacity) {
        SamePoints(b, backlog);
        OneSignFills(Sort(RankLe, b), capacity);
      }
    } else {
      var b := MixedSignsLeaveRoom(backlog);
    }
  }

  lemma SamePoints(b: seq<BacklogItem>, backlog: seq<BacklogItem>)
    requires Reprioritised(b, backlog)
    ensures forall x :: x in Sort(RankLe, b) ==> exists y :: y in backlog && y.storyPoints == x.storyPoints
  {
    SameElements(Sort(RankLe, b), b);
    forall x | x in b ensures exists y :: y in backlog && y.storyPoints == x.storyPoints {
      var i :| 0 <= i < |b| && b[i] == x;
      assert backlog[i] in backlog;
    }
  }

  lemma OneSignFills(items: seq<BacklogItem>, capacity: nat)
    requires NonNegative(items) || NonPositive(items)
    ensures NothingMoreFits(items, capacity)
  {
    if NonNegative(items) {
      forall i | 0 <= i < |items| && !Choice(items, capacity)[i]
        ensures items[i].storyPoints > capacity - Spent(items, Choice(items, capacity))
      {
        LeftOutDoesNotFit(items, capacity, i);
      }
    } else {
      forall i | 0 <= i < |items| ensures Choice(items, capacity)[i] {
        NothingLeftOut(items, capacity, i);
      }
    }
  }

  lemma NothingLeftOut(items: seq<BacklogItem>, capacity: nat, i: nat)
    requires NonPositive(items) && i < |items|
    ensures Choice(items, capacity)[i]
  {
    ChosenIffFits(items, capacity, i);
    ChoiceOfPrefix(items, capacity, i);
    ChoiceFits(items[..i], capacity);
    assert items[i] in items;
  }

  /** Items too large for the whole capacity are all left out. */
  lemma {:induction false} TooLargeSpendNothing(items: seq<BacklogItem>, capacity: nat)
    requires forall i :: 0 <= i < |items| ==> items[i].storyPoints > capacity
    ensures Spent(items, Choice(items, capacity)) == 0
  {
    if |items| > 0 {
      LastSpent(items, capacity);
      TooLargeSpendNothing(items[..|items| - 1], capacity);
    }
  }

  lemma LastSpent(items: seq<BacklogItem>, capacity: nat)
    requires |items| > 0
    ensures var last, before := items[|items| - 1].storyPoints,
                                Spent(items[..|items| - 1], Choice(items[..|items| - 1], capacity));
            Spent(items, Choice(items, capacity)) == before + if last <= capacity - before then last else 0
  {
    var c := Choice(items, capacity);
    assert c[..|c| - 1] == Choice(items[..|items| - 1], capacity);
  }

  /** Every positive item is too large for the whole capacity and stands above all the others. */
  ghost predicate TooLargeFirst(items: seq<BacklogItem>, capacity: nat) {
    && (forall i, j :: 0 <= i < j < |items| && items[i].storyPoints <= 0 ==> items[j].storyPoints <= 0)
    && (forall i :: 0 <= i < |items| && items[i].storyPoints > 0 ==> items[i].storyPoints > capacity)
  }

  lemma PositiveLeftOut(items: seq<BacklogItem>, capacity: nat, i: nat)
    requires TooLargeFirst(items, capacity) && i < |items| && items[i].storyPoints > 0
    ensures !Choice(items, capacity)[i] && Spent(items[..i], Choice(items[..i], capacity)) == 0
  {
    TooLargeSpendNothing(items[..i], capacity);
    ChosenIffFits(items, capacity, i);
    ChoiceOfPrefix(items, capacity, i);
  }

  lemma TooLargeBefore(items: seq<BacklogItem>, capacity: nat)
    requires TooLargeFirst(items, capacity) && |items| > 0
    ensures TooLargeFirst(items[..|items| - 1], capacity)
  {
  }

  lemma {:induction false} NothingPositiveSpent(items: seq<BacklogItem>, capacity: nat)
    requires TooLargeFirst(items, capacity)
    ensures Spent(items, Choice(items, capacity)) <= 0
  {
    if |items| > 0 {
      var n := |items| - 1;
      TooLargeBefore(items, capacity);
      NothingPositiveSpent(items[..n], capacity);
      LastSpent(items, capacity);
      if items[n].storyPoints > 0 {
        PositiveLeftOut(items, capacity, n);
      }
    }
  }

  lemma {:induction false} NegativeGivesBack(items: seq<BacklogItem>, capacity: nat, j: nat)
    requires TooLargeFirst(items, capacity) && j < |items| && items[j].storyPoints < 0
    ensures Spent(items, Choice(items, capacity)) < 0
  {
    var n := |items| - 1;
    TooLargeBefore(items, capacity);
    NothingPositiveSpent(items[..n], capacity);
    LastSpent(items, capacity);
    if j < n {
      NegativeGivesBack(items[..n], capacity, j);
    }
  }

  /** Ranks that put the positive items first. */
  function PositivesFirst(backlog: seq<BacklogItem>): seq<BacklogItem> {
    seq(|backlog|, i requires 0 <= i < |backlog| =>
      backlog[i].(priorityRank := if backlog[i].storyPoints > 0 then 0 else 1))
  }

  lemma PositivesComeFirst(backlog: seq<BacklogItem>)
    ensures Reprioritised(PositivesFirst(backlog), backlog)
    ensures var items := Sort(RankLe, PositivesFirst(backlog));
            && (forall x :: x in items <==> x in PositivesFirst(backlog))
            && forall i, j :: 0 <= i < j < |items| && items[i].storyPoints <= 0 ==> items[j].storyPoints <= 0
  {
    var b := PositivesFirst(backlog);
    var items := Sort(RankLe, b);
    SameElements(items, b);
    SortSorts(RankLe, b);
    forall i, j | 0 <= i < j < |items| && items[i].storyPoints <= 0 ensures items[j].storyPoints <= 0 {
      assert RankLe(items[i], items[j]);
      assert items[i] in b && items[j] in b;
    }
  }

  lemma LeastPositive(items: seq<BacklogItem>) returns (least: BacklogItem)
    requires exists x :: x in items && x.storyPoints > 0
    ensures least in items && least.storyPoints > 0
    ensures forall x :: x in items && x.storyPoints > 0 ==> least.storyPoints <= x.storyPoints
  {
    least :| least in items && least.storyPoints > 0;
    while exists x :: x in items && 0 < x.storyPoints < least.storyPoints
      invariant least in items && least.storyPoints > 0
      decreases least.storyPoints
    {
      var x :| x in items && 0 < x.storyPoints < least.storyPoints;
      least := x;
    }
  }

  lemma MixedSignsLeaveRoom(backlog: seq<BacklogItem>) returns (b: seq<BacklogItem>)
    requires !NonNegative(backlog) && !NonPositive(backlog)
    ensures Reprioritised(b, backlog) && exists capacity: nat :: !NothingMoreFits(Sort(RankLe, b), capacity)
  {
    b := PositivesFirst(backlog);
    PositivesComeFirst(backlog);
    var items := Sort(RankLe, b);
    var i, j := PositivesStandFirst(backlog);
    LeastLeftOut(items, items[i].storyPoints - 1, i, j);
  }

  /** The places of the least positive item and of a negative one. */
  lemma PositivesStandFirst(backlog: seq<BacklogItem>) returns (i: nat, j: nat)
    requires !NonNegative(backlog) && !NonPositive(backlog)
    ensures var items := Sort(RankLe, PositivesFirst(backlog));
            && i < |items| && items[i].storyPoints > 0 && TooLargeFirst(items, items[i].storyPoints - 1)
            && j < |items| && items[j].storyPoints < 0
  {
    var items := Sort(RankLe, PositivesFirst(backlog));
    PositivesComeFirst(backlog);
    BothSigns(backlog);
    var least := LeastPositive(items);
    i :| 0 <= i < |items| && items[i] == least;
    j :| 0 <= j < |items| && items[j].storyPoints < 0;
  }

  /** With one point less than the least positive item needs, that item is left out, and what the negative
      items give back makes room for it. */
  lemma LeastLeftOut(items: seq<BacklogItem>, capacity: nat, i: nat, j: nat)
    requires TooLargeFirst(items, capacity) && i < |items| && j < |items|
    requires items[i].storyPoints == capacity + 1 && items[j].storyPoints < 0
    ensures !NothingMoreFits(items, capacity)
  {
    NegativeGivesBack(items, capacity, j);
    PositiveLeftOut(items, capacity, i);
  }

  lemma BothSigns(backlog: seq<BacklogItem>)
    requires !NonNegative(backlog) && !NonPositive(backlog)
    ensures exists x :: x in PositivesFirst(backlog) && x.storyPoints > 0
    ensures exists x :: x in PositivesFirst(backlog) && x.storyPoints < 0
  {
    var b := PositivesFirst(backlog);
    var i :| 0 <= i < |backlog| && backlog[i].storyPoints > 0;
    var j :| 0 <= j < |backlog| && backlog[j].storyPoints < 0;
    assert b[i] in b && b[j] in b;
  }

  /** A plan that keeps within the capacity all the way down the list. */
  ghost predicate KeepsWithin(items: seq<BacklogItem>, c: seq<bool>, capacity: int)
    requires |c| == |items|
  {
    forall n :: 0 <= n <= |items| ==> Feasible(items[..n], c[..n], capacity)
  }

  lemma ChoiceKeepsWithin(items: seq<BacklogItem>, capacity: nat)
    ensures KeepsWithin(items, Choice(items, capacity), capacity)
  {
    forall n | 0 <= n <= |items| ensures Feasible(items[..n], Choice(items, capacity)[..n], capacity) {
      ChoiceOfPrefix(items, capacity, n);
      ChoiceFits(items[..n], capacity);
    }
  }

  /** Whatever the points, of all plans that keep within the capacity all the way down, the selection is
      the one that priority order prefers. */
  lemma ChoiceIsGreatest(items: seq<BacklogItem>, capacity: nat, other: seq<bool>)
    requires |other| == |items| && KeepsWithin(items, other, capacity)
    ensures KeepsWithin(items, Choice(items, capacity), capacity)
    ensures other == Choice(items, capacity) || Prefers(Choice(items, capacity), other)
  {
    ChoiceKeepsWithin(items, capacity);
    var c := Choice(items, capacity);
    if other != c {
      var i := FirstDifference(c, other);
      ChosenIffFits(items, capacity, i);
      if other[i] {
        TakenFits(items, other, capacity, i);
      }
    }
  }

  lemma TakenFits(items: seq<BacklogItem>, c: seq<bool>, capacity: int, i: nat)
    requires |c| == |items| && KeepsWithin(items, c, capacity) && i < |items| && c[i]
    ensures items[i].storyPoints <= capacity - Spent(items[..i], c[..i])
  {
    assert Feasible(items[..i + 1], c[..i + 1], capacity);
    assert items[..i + 1][..i] == items[..i] && c[..i + 1][..i] == c[..i];
  }

  /** `a` takes an item that `b` leaves, and they agree on every item of higher priority. */
  ghost predicate Prefers(a: seq<bool>, b: seq<bool>) {
    |a| == |b| && exists i :: 0 <= i < |a| && a[i] && !b[i] && a[..i] == b[..i]
  }

  /** With non-negative points it is the feasible plan that priority order prefers to every other one. */
  lemma ChoiceIsPreferred(items: seq<BacklogItem>, capacity: nat, other: seq<bool>)
    requires NonNegative(items) && |other| == |items| && Feasible(items, other, capacity)
    ensures other == Choice(items, capacity) || Prefers(Choice(items, capacity), other)
  {
    forall n | 0 <= n <= |items| ensures Feasible(items[..n], other[..n], capacity) {
      SpentGrows(items, other, n);
    }
    ChoiceIsGreatest(items, capacity, other);
  }

  lemma {:induction false} FirstDifference(a: seq<bool>, b: seq<bool>) returns (i: nat)
    requires |a| == |b| && a != b
    ensures i < |a| && a[i] != b[i] && a[..i] == b[..i]
    decreases |a|
  {
    var n := |a| - 1;
    if a[..n] == b[..n] {
      assert a == a[..n] + [a[n]] && b == b[..n] + [b[n]];
      i := n;
    } else {
      i := FirstDifference(a[..n], b[..n]);
      assert a[..n][..i] == a[..i] && b[..n][..i] == b[..i];
    }
  }

  // ---------------------------------------------------------------- what a plan selects

  /** `x` has the lower rank number, or the same and the earlier place in the backlog. */
  ghost predicate ComesFirst(backlog: seq<BacklogItem>, x: BacklogItem, y: BacklogItem) {
    x.priorityRank < y.priorityRank || (x.priorityRank == y.priorityRank && Precedes(backlog, x, y))
  }

  lemma RankLeRanking()
    ensures Ranking(RankLe)
  {
  }

  lemma PrecedesAt(items: seq<BacklogItem>, i: nat, j: nat)
    requires Distinct(items) && i < |items| && j < |items|
    ensures Precedes(items, items[i], items[j]) <==> i < j
  {
    if Precedes(items, items[i], items[j]) {
      var p, q :| 0 <= p < q < |items| && items[p] == items[i] && items[q] == items[j];
      assert p == i && q == j;
    }
  }

  lemma TiesStay(backlog: seq<BacklogItem>, x: BacklogItem, y: BacklogItem)
    ensures Precedes(backlog, x, y) && x.priorityRank == y.priorityRank ==> Precedes(Sort(RankLe, backlog), x, y)
  {
    if Precedes(backlog, x, y) && x.priorityRank == y.priorityRank {
      SortKeepsOrder(RankLe, backlog, x, y);
    }
  }

  lemma PrecedesOneWay(items: seq<BacklogItem>, x: BacklogItem, y: BacklogItem)
    requires Distinct(items) && x in items && y in items
    ensures !(Precedes(items, x, y) && Precedes(items, y, x))
    ensures x != y ==> Precedes(items, x, y) || Precedes(items, y, x)
  {
    var a :| 0 <= a < |items| && items[a] == x;
    var b :| 0 <= b < |items| && items[b] == y;
    PrecedesAt(items, a, b);
    PrecedesAt(items, b, a);
  }

  lemma ComesFirstOneWay(backlog: seq<BacklogItem>, x: BacklogItem, y: BacklogItem)
    requires Distinct(backlog) && x in backlog && y in backlog
    requires x == y || ComesFirst(backlog, x, y)
    ensures !ComesFirst(backlog, y, x)
  {
    PrecedesOneWay(backlog, x, y);
  }

  lemma SortedOnesAreIn(backlog: seq<BacklogItem>, i: nat)
    requires i < |backlog|
    ensures Sort(RankLe, backlog)[i] in backlog
  {
    SameElements(backlog, Sort(RankLe, backlog));
  }

  lemma EarlierComesFirst(backlog: seq<BacklogItem>, j: nat, i: nat)
    requires Distinct(backlog) && j < i < |backlog|
    ensures var items := Sort(RankLe, backlog); ComesFirst(backlog, items[j], items[i])
  {
    var items := Sort(RankLe, backlog);
    DistinctPermutation(backlog, items);
    SortedOnesAreIn(backlog, i);
    SortedOnesAreIn(backlog, j);
    RankLeRanking();
    SortSorts(RankLe, backlog);
    assert RankLe(items[j], items[i]);
    PrecedesOneWay(backlog, items[j], items[i]);
    TiesStay(backlog, items[i], items[j]);
    PrecedesAt(items, i, j);
  }

  lemma LaterComesAfter(backlog: seq<BacklogItem>, i: nat, j: nat)
    requires Distinct(backlog) && i <= j < |backlog|
    ensures var items := Sort(RankLe, backlog); !ComesFirst(backlog, items[j], items[i])
  {
    var items := Sort(RankLe, backlog);
    SortedOnesAreIn(backlog, i);
    SortedOnesAreIn(backlog, j);
    if i < j {
      EarlierComesFirst(backlog, i, j);
    }
    ComesFirstOneWay(backlog, items[i], items[j]);
  }

  lemma {:induction false} ChosenInParts(items: seq<BacklogItem>, c: seq<bool>, i: nat)
    requires |c| == |items| && i <= |items|
    ensures Chosen(items, c) == Chosen(items[..i], c[..i]) + Chosen(items[i..], c[i..])
  {
    if i == |items| {
      assert items[..i] == items && c[..i] == c;
    } else {
      var n := |items| - 1;
      ChosenInParts(items[..n], c[..n], i);
      assert items[..n][..i] == items[..i] && c[..n][..i] == c[..i];
      assert items[i..][..n - i] == items[..n][i..] && c[i..][..n - i] == c[..n][i..];
    }
  }

  lemma {:induction false} ChosenAre(items: seq<BacklogItem>, c: seq<bool>, x: BacklogItem)
    requires |c| == |items|
    ensures x in Chosen(items, c) <==> exists k :: 0 <= k < |items| && items[k] == x && c[k]
  {
    if |items| > 0 {
      var n := |items| - 1;
      ChosenAre(items[..n], c[..n], x);
      if k :| 0 <= k < n && items[..n][k] == x && c[..n][k] {
        assert items[k] == x && c[k];
      }
    }
  }

  lemma {:induction false} ChosenPoints(items: seq<BacklogItem>, c: seq<bool>)
    requires |c| == |items|
    ensures Points(Chosen(items, c)) == Spent(items, c)
  {
    if |items| > 0 {
      var n := |items| - 1;
      var before := Chosen(items[..n], c[..n]);
      ChosenPoints(items[..n], c[..n]);
      assert Chosen(items, c) == if c[n] then before + [items[n]] else before;
      PointsOneMore(before, items[n]);
    }
  }

  lemma ChosenEarly(backlog: seq<BacklogItem>, c: seq<bool>, i: nat, y: BacklogItem)
    requires Distinct(backlog) && |c| == |backlog| && i < |backlog|
    requires y in Chosen(Sort(RankLe, backlog)[..i], c[..i])
    ensures ComesFirst(backlog, y, Sort(RankLe, backlog)[i])
  {
    var items := Sort(RankLe, backlog);
    ChosenAre(items[..i], c[..i], y);
    var k :| 0 <= k < i && items[..i][k] == y;
    EarlierComesFirst(backlog, k, i);
  }

  lemma ChosenLate(backlog: seq<BacklogItem>, c: seq<bool>, i: nat, y: BacklogItem)
    requires Distinct(backlog) && |c| == |backlog| && i < |backlog|
    requires y in Chosen(Sort(RankLe, backlog)[i..], c[i..])
    ensures !ComesFirst(backlog, y, Sort(RankLe, backlog)[i])
  {
    var items := Sort(RankLe, backlog);
    ChosenAre(items[i..], c[i..], y);
    var k :| 0 <= k < |items| - i && items[i..][k] == y;
    LaterComesAfter(backlog, i, i + k);
  }

  lemma ChosenBefore(backlog: seq<BacklogItem>, c: seq<bool>, i: nat, first: BacklogItem -> bool)
    requires Distinct(backlog) && |c| == |backlog| && i < |backlog|
    requires forall y :: first(y) <==> ComesFirst(backlog, y, Sort(RankLe, backlog)[i])
    ensures var items := Sort(RankLe, backlog); Filter(first, Chosen(items, c)) == Chosen(items[..i], c[..i])
  {
    var items := Sort(RankLe, backlog);
    var early, late := Chosen(items[..i], c[..i]), Chosen(items[i..], c[i..]);
    ChosenInParts(items, c, i);
    FilterJoin(first, early, late);
    forall y | y in early ensures first(y) {
      ChosenEarly(backlog, c, i, y);
    }
    forall y | y in late ensures !first(y) {
      ChosenLate(backlog, c, i, y);
    }
    FilterEvery(first, early);
    FilterNone(first, late);
  }

  lemma SelectedAt(items: seq<BacklogItem>, capacity: int, i: nat)
    requires Distinct(items) && i < |items|
    ensures var c := Choice(items, capacity);
            items[i] in Chosen(items, c) <==> items[i].storyPoints <= capacity - Points(Chosen(items[..i], c[..i]))
  {
    var c := Choice(items, capacity);
    ChosenAre(items, c, items[i]);
    ChosenPoints(items[..i], c[..i]);
    ChosenIffFits(items, capacity, i);
    ChoiceOfPrefix(items, capacity, i);
  }

  /** A plan selects an item exactly when it fits what the selected items that come first leave of the capacity. */
  lemma SelectedIffFits(plan: Recommendation, backlog: seq<BacklogItem>, velocity: int, availability: real, x: BacklogItem,
                        first: BacklogItem -> bool)
    requires IsPlan(plan, backlog, Some(velocity), Some(availability)) && Distinct(backlog) && x in backlog
    requires forall y :: first(y) <==> ComesFirst(backlog, y, x)
    ensures x in plan.selected <==> x.storyPoints <= plan.recommendedPoints.value - Points(Filter(first, plan.selected))
  {
    var items, capacity := Sort(RankLe, backlog), Capacity(velocity, availability);
    var c := Choice(items, capacity);
    SameElements(backlog, items);
    DistinctPermutation(backlog, items);
    var i :| 0 <= i < |items| && items[i] == x;
    ChosenBefore(backlog, c, i, first);
    SelectedAt(items, capacity, i);
  }

  /** The points a plan recommends are velocity times availability without the fraction, and none if that is negative. */
  lemma RecommendedPoints(plan: Recommendation, backlog: seq<BacklogItem>, velocity: int, availability: real)
    requires IsPlan(plan, backlog, Some(velocity), Some(availability))
    ensures var points, exact := plan.recommendedPoints.value, velocity as real * availability;
            if exact < 0.0 then points == 0 else points as real <= exact < points as real + 1.0
  {
  }

  // ---------------------------------------------------------------- the overflow question

  lemma {:induction false} AllChosenSpendsAll(items: seq<BacklogItem>, c: seq<bool>)
    requires |c| == |items| && forall i :: 0 <= i < |c| ==> c[i]
    ensures Spent(items, c) == Points(items)
  {
    if |items| > 0 {
      AllChosenSpendsAll(items[..|items| - 1], c[..|c| - 1]);
    }
  }

  function Without(b: seq<BacklogItem>, i: nat): seq<BacklogItem>
    requires i < |b|
  {
    b[..i] + b[i + 1..]
  }

  lemma {:induction false} PointsWithout(b: seq<BacklogItem>, i: nat)
    requires i < |b|
    ensures Points(b) == Points(Without(b, i)) + b[i].storyPoints
  {
    var init := b[..|b| - 1];
    if i == |b| - 1 {
      assert Without(b, i) == init;
    } else {
      PointsWithout(init, i);
      assert Without(b, i) == Without(init, i) + [b[|b| - 1]];
      PointsOneMore(Without(init, i), b[|b| - 1]);
    }
  }

  lemma PointsOneMore(items: seq<BacklogItem>, x: BacklogItem)
    ensures Points(items + [x]) == Points(items) + x.storyPoints
  {
    assert (items + [x])[..|items|] == items;
  }

  lemma MultisetWithout(a: seq<BacklogItem>, b: seq<BacklogItem>) returns (i: nat)
    requires |a| > 0 && multiset(a) == multiset(b)
    ensures i < |b| && b[i] == a[|a| - 1] && multiset(Without(b, i)) == multiset(a[..|a| - 1])
  {
    var x, init := a[|a| - 1], a[..|a| - 1];
    assert a == init + [x];
    SameElements(a, b);
    assert x in a;
    i :| 0 <= i < |b| && b[i] == x;
    MultisetLess(b, i);
    assert multiset(init) == multiset(a) - multiset{x};
  }

  lemma MultisetLess(b: seq<BacklogItem>, i: nat)
    requires i < |b|
    ensures multiset(Without(b, i)) == multiset(b) - multiset{b[i]}
  {
    assert b == b[..i] + [b[i]] + b[i + 1..];
  }

  lemma {:induction false} PointsOfPermutation(a: seq<BacklogItem>, b: seq<BacklogItem>)
    requires multiset(a) == multiset(b)
    ensures Points(a) == Points(b)
    decreases |a|
  {
    if |a| == 0 {
      assert |b| == |multiset(b)| == 0;
    } else {
      var i := MultisetWithout(a, b);
      PointsOfPermutation(a[..|a| - 1], Without(b, i));
      PointsWithout(b, i);
    }
  }

  ghost predicate LeavesOut(items: seq<BacklogItem>, c: seq<bool>)
    requires |c| == |items|
  {
    exists i :: 0 <= i < |c| && !c[i]
  }

  lemma LeftOutIffOver(items: seq<BacklogItem>, capacity: nat)
    requires NonNegative(items)
    ensures Points(items) > capacity <==> LeavesOut(items, Choice(items, capacity))
  {
    var c := Choice(items, capacity);
    if LeavesOut(items, c) {
      var i :| 0 <= i < |c| && !c[i];
      LeftOutDoesNotFit(items, capacity, i);
      SpentPlusLeftOut(items, c, i);
    } else {
      AllChosenSpendsAll(items, c);
      ChoiceFits(items, capacity);
    }
  }

  /** The question is never raised without cause, whatever the points. */
  lemma OverflowMeansLeftOut(items: seq<BacklogItem>, capacity: nat)
    requires Points(items) > capacity
    ensures LeavesOut(items, Choice(items, capacity))
  {
    var c := Choice(items, capacity);
    if !LeavesOut(items, c) {
      AllChosenSpendsAll(items, c);
      ChoiceFits(items, capacity);
    }
  }

  /** With non-negative points, the overflow question is raised exactly when some item is left out. */
  lemma OverflowIffLeftOut(backlog: seq<BacklogItem>, capacity: nat)
    requires NonNegative(backlog)
    ensures Points(backlog) > capacity <==>
            LeavesOut(Sort(RankLe, backlog), Choice(Sort(RankLe, backlog), capacity))
  {
    var items := Sort(RankLe, backlog);
    SameElements(items, backlog);
    PointsOfPermutation(items, backlog);
    LeftOutIffOver(items, capacity);
  }

  lemma {:induction false} SpentPlusLeftOut(items: seq<BacklogItem>, c: seq<bool>, i: nat)
    requires NonNegative(items) && |c| == |items| && i < |items| && !c[i]
    ensures Spent(items, c) + items[i].storyPoints <= Points(items)
  {
    var init := items[..|items| - 1];
    assert items[|items| - 1] in items;
    if i < |init| {
      SpentPlusLeftOut(init, c[..|c| - 1], i);
    } else {
      SpentWithinPoints(init, c[..|c| - 1]);
    }
  }

  lemma {:induction false} SpentWithinPoints(items: seq<BacklogItem>, c: seq<bool>)
    requires NonNegative(items) && |c| == |items|
    ensures Spent(items, c) <= Points(items)
  {
    if |items| > 0 {
      assert items[|items| - 1] in items;
      SpentWithinPoints(items[..|items| - 1], c[..|c| - 1]);
    }
  }

  // ---------------------------------------------------------------- the question, whatever the points

  /** Some items of highest priority alone exceed the capacity. */
  ghost predicate SomePrefixOver(items: seq<BacklogItem>, capacity: nat) {
    exists n :: 0 <= n <= |items| && Points(items[..n]) > capacity
  }

  lemma FirstLeftOut(items: seq<BacklogItem>, c: seq<bool>) returns (i: nat)
    requires |c| == |items| && LeavesOut(items, c)
    ensures i < |c| && !c[i] && forall j :: 0 <= j < i ==> c[j]
  {
    i := 0;
    while c[i]
      invariant i < |c| && forall j :: 0 <= j < i ==> c[j]
      invariant exists k :: i <= k < |c| && !c[k]
      decreases |c| - i
    {
      i := i + 1;
    }
  }

  /** An item is left out exactly when the items from the top down to some point exceed the capacity. */
  lemma LeftOutIffPrefixOver(items: seq<BacklogItem>, capacity: nat)
    ensures LeavesOut(items, Choice(items, capacity)) <==> SomePrefixOver(items, capacity)
  {
    var c := Choice(items, capacity);
    if LeavesOut(items, c) {
      var i := FirstLeftOut(items, c);
      ChosenIffFits(items, capacity, i);
      AllChosenSpendsAll(items[..i], c[..i]);
      assert items[..i + 1][..i] == items[..i];
      assert Points(items[..i + 1]) > capacity;
    }
    if SomePrefixOver(items, capacity) {
      var n :| 0 <= n <= |items| && Points(items[..n]) > capacity;
      OverflowMeansLeftOut(items[..n], capacity);
      ChoiceOfPrefix(items, capacity, n);
      var i :| 0 <= i < n && !Choice(items[..n], capacity)[i];
      assert !c[i];
    }
  }

  lemma {:induction false} ChosenCount(items: seq<BacklogItem>, c: seq<bool>)
    requires |c| == |items|
    ensures |Chosen(items, c)| <= |items| && (|Chosen(items, c)| < |items| <==> LeavesOut(items, c))
  {
    if |items| > 0 {
      var n := |items| - 1;
      ChosenCount(items[..n], c[..n]);
      assert c == c[..n] + [c[n]];
      if LeavesOut(items[..n], c[..n]) {
        var i :| 0 <= i < n && !c[..n][i];
        assert !c[i];
      }
    }
  }

  lemma LeftOutOfPlan(plan: Recommendation, backlog: seq<BacklogItem>, velocity: int, availability: real)
    requires IsPlan(plan, backlog, Some(velocity), Some(availability))
    ensures |plan.selected| < |backlog| <==> SomePrefixOver(Sort(RankLe, backlog), Capacity(velocity, availability))
  {
    var capacity, items := Capacity(velocity, availability), Sort(RankLe, backlog);
    ChosenCount(items, Choice(items, capacity));
    LeftOutIffPrefixOver(items, capacity);
  }

  lemma WholeIsPrefix(items: seq<BacklogItem>, capacity: nat)
    requires Points(items) > capacity
    ensures SomePrefixOver(items, capacity)
  {
    assert items[..|items|] == items;
  }

  /** A plan raises the overflow question exactly when it leaves an item out, unless the whole backlog
      fits while some part of it, taken from the top, does not. */
  lemma QuestionIsRightIff(plan: Recommendation, backlog: seq<BacklogItem>, velocity: int, availability: real)
    requires IsPlan(plan, backlog, Some(velocity), Some(availability))
    ensures (BacklogExceedsCapacity in plan.openQuestions <==> |plan.selected| < |backlog|) <==>
            (Points(backlog) > Capacity(velocity, availability)
             || !SomePrefixOver(Sort(RankLe, backlog), Capacity(velocity, availability)))
  {
    var capacity, items := Capacity(velocity, availability), Sort(RankLe, backlog);
    LeftOutOfPlan(plan, backlog, velocity, availability);
    PointsOfPermutation(items, backlog);
    if Points(items) > capacity {
      WholeIsPrefix(items, capacity);
    }
  }

  const FIRST := BacklogItem("A", 1, 5)
  const REFUND := BacklogItem("B", 2, -5)

  lemma RefundChoice()
    ensures Points([FIRST, REFUND]) == 0 && Choice([FIRST, REFUND], 0) == [false, true]
  {
    assert [FIRST, REFUND][..1] == [FIRST] && [FIRST][..0] == [];
    assert [false][..0] == [] && Spent([], []) == 0;
    assert Points([FIRST]) == 5;
    assert Choice([FIRST], 0) == [false];
    assert Spent([FIRST], [false]) == 0;
  }

  lemma RefundChosen()
    ensures Chosen([FIRST, REFUND], [false, true]) == [REFUND]
  {
    assert [FIRST, REFUND][..1] == [FIRST] && [FIRST][..0] == [];
    assert [false, true][..1] == [false] && [false][..0] == [];
    assert Chosen([FIRST], [false]) == [];
  }

  lemma RefundSorted()
    ensures Sort(RankLe, [FIRST, REFUND]) == [FIRST, REFUND]
  {
    assert [FIRST, REFUND][1..] == [REFUND] && [REFUND][1..] == [];
    assert Sort(RankLe, [REFUND]) == [REFUND];
  }

  /** A negative item can make room: the first item is left out and yet fits what finally remains. */
  lemma NegativePointsMakeRoom()
    ensures !Choice([FIRST, REFUND], 0)[0]
    ensures FIRST.storyPoints <= 0 - Spent([FIRST, REFUND], Choice([FIRST, REFUND], 0))
  {
    RefundChoice();
    assert [FIRST, REFUND][..1] == [FIRST] && [FIRST][..0] == [];
    assert [false, true][..1] == [false] && [false][..0] == [];
    assert Spent([FIRST], [false]) == 0;
  }

  /** A negative item can hide an overflow: the plan leaves the first item out and raises no question. */
  lemma NegativePointsHideOverflow(plan: Recommendation)
    requires IsPlan(plan, [FIRST, REFUND], Some(0), Some(1.0))
    ensures plan.selected == [REFUND] && BacklogExceedsCapacity !in plan.openQuestions
  {
    RefundSorted();
    RefundChoice();
    RefundChosen();
    assert Capacity(0, 1.0) == 0;
  }
}
