/** The layout checker: siblings must not overlap and children must fit their parent. */
module LayoutCheck {
  import opened Prelude

  datatype Rect = Rect(x: real, y: real, w: real, h: real)

  datatype Shape<Id> = Shape(id: Id, parent: Id, rect: Rect)

  datatype Problem<Id> = Overlapping(parent: Id, a: Id, b: Id) | OutOfBounds(id: Id, parent: Id)

  const PAD: real := 1.0
  const SLACK: real := 0.5

  predicate Overlap(a: Rect, b: Rect) {
    !(a.x + a.w <= b.x + PAD || b.x + b.w <= a.x + PAD || a.y + a.h <= b.y + PAD || b.y + b.h <= a.y + PAD)
  }

  predicate Fits(child: Rect, parent: Rect) {
    !(child.x < -SLACK || child.y < -SLACK || child.x + child.w > parent.w + SLACK || child.y + child.h > parent.h + SLACK)
  }

  /** Two boxes overlap exactly when each reaches more than 1 past where the other begins, both ways. */
  lemma OverlapByEdges(a: Rect, b: Rect)
    ensures Overlap(a, b) <==>
            && a.x + a.w - b.x > 1.0 && b.x + b.w - a.x > 1.0
            && a.y + a.h - b.y > 1.0 && b.y + b.h - a.y > 1.0
  {
  }

  /** A box fits its parent exactly when no edge of it lies more than a half outside. */
  lemma FitsByEdges(child: Rect, parent: Rect)
    ensures Fits(child, parent) <==>
            && child.x >= -0.5 && child.x + child.w - parent.w <= 0.5
            && child.y >= -0.5 && child.y + child.h - parent.h <= 0.5
  {
  }

  /** The geometry table: the last shape of each id. */
  function Geometry<Id>(shapes: seq<Shape<Id>>): map<Id, Shape<Id>> {
    if |shapes| == 0 then map[]
    else Geometry(shapes[..|shapes| - 1])[shapes[|shapes| - 1].id := shapes[|shapes| - 1]]
  }

  function Children<Id(==)>(shapes: seq<Shape<Id>>, parent: Id): seq<Shape<Id>> {
    if |shapes| == 0 then []
    else
      var last := shapes[|shapes| - 1];
      var before := Children(shapes[..|shapes| - 1], parent);
      if last.parent == parent then before + [last] else before
  }

  ghost predicate Separate<Id>(items: seq<Shape<Id>>) {
    forall i, j :: 0 <= i < j < |items| ==> !Overlap(items[i].rect, items[j].rect)
  }

  ghost predicate Contained<Id>(geom: map<Id, Shape<Id>>, id: Id)
    requires id in geom
  {
    var s := geom[id]; s.parent in geom ==> Fits(s.rect, geom[s.parent].rect)
  }

  /** No two siblings overlap, and every child whose parent is a shape fits it. */
  ghost predicate Legible<Id(!new)>(shapes: seq<Shape<Id>>) {
    var geom := Geometry(shapes);
    && (forall i, j :: 0 <= i < j < |shapes| && shapes[i].parent == shapes[j].parent ==>
          !Overlap(shapes[i].rect, shapes[j].rect))
    && (forall id :: id in geom ==> Contained(geom, id))
  }

  /** What the two tables of the checker hold. */
  ghost predicate Tabled<Id(!new)>(shapes: seq<Shape<Id>>, geom: map<Id, Shape<Id>>, byParent: map<Id, seq<Shape<Id>>>) {
    && geom == Geometry(shapes)
    && (forall p :: Children(shapes, p) == if p in byParent then byParent[p] else [])
    && (forall s :: s in shapes ==> s.parent in byParent)
  }

  lemma TabledOneMore<Id(!new)>(shapes: seq<Shape<Id>>, geom: map<Id, Shape<Id>>, byParent: map<Id, seq<Shape<Id>>>, s: Shape<Id>)
    requires Tabled(shapes, geom, byParent)
    ensures Tabled(shapes + [s], geom[s.id := s],
                   byParent[s.parent := (if s.parent in byParent then byParent[s.parent] else []) + [s]])
  {
    assert (shapes + [s])[..|shapes|] == shapes;
  }

  method Tables<Id(==, !new)>(shapes: seq<Shape<Id>>)
    returns (geom: map<Id, Shape<Id>>, byParent: map<Id, seq<Shape<Id>>>)
    ensures Tabled(shapes, geom, byParent)
  {
    geom, byParent := map[], map[];
    for i := 0 to |shapes|
      invariant Tabled(shapes[..i], geom, byParent)
    {
      var s := shapes[i];
      assert shapes[..i + 1] == shapes[..i] + [s];
      TabledOneMore(shapes[..i], geom, byParent, s);
      geom := geom[s.id := s];
      byParent := byParent[s.parent := (if s.parent in byParent then byParent[s.parent] else []) + [s]];
    }
    assert shapes[..|shapes|] == shapes;
  }

  method SiblingOverlaps<Id(==)>(items: seq<Shape<Id>>, parent: Id) returns (found: seq<Problem<Id>>)
    ensures found == [] <==> Separate(items)
  {
    found := [];
    for i := 0 to |items|
      invariant found == [] <==> forall a, b :: 0 <= a < i && a < b < |items| ==> !Overlap(items[a].rect, items[b].rect)
    {
      for j := i + 1 to |items|
        invariant found == [] <==>
                  && (forall a, b :: 0 <= a < i && a < b < |items| ==> !Overlap(items[a].rect, items[b].rect))
                  && (forall b :: i < b < j ==> !Overlap(items[i].rect, items[b].rect))
      {
        if Overlap(items[i].rect, items[j].rect) {
          found := found + [Overlapping(parent, items[i].id, items[j].id)];
        }
      }
    }
  }

  /** Reports nothing exactly when the diagram is legible. */
  method Check<Id(==, !new)>(shapes: seq<Shape<Id>>) returns (problems: seq<Problem<Id>>, total: nat)
    ensures problems == [] <==> Legible(shapes)
    ensures total == |Geometry(shapes)|
  {
    var geom, byParent := Tables(shapes);
    total := |geom|;
    problems := AllOverlaps(byParent);
    SeparateSiblings(shapes, byParent.Keys);
    var outside := OutsideParent(geom);
    problems := problems + outside;
  }

  method AllOverlaps<Id(==, !new)>(byParent: map<Id, seq<Shape<Id>>>) returns (problems: seq<Problem<Id>>)
    ensures problems == [] <==> forall p :: p in byParent ==> Separate(byParent[p])
  {
    problems := [];
    var parents := byParent.Keys;
    while parents != {}
      invariant parents <= byParent.Keys
      invariant problems == [] <==> forall p :: p in byParent && p !in parents ==> Separate(byParent[p])
      decreases parents
    {
      var p :| p in parents;
      parents := parents - {p};
      var found := SiblingOverlaps(byParent[p], p);
      problems := problems + found;
    }
  }

  method OutsideParent<Id(==, !new)>(geom: map<Id, Shape<Id>>) returns (found: seq<Problem<Id>>)
    ensures found == [] <==> forall id :: id in geom ==> Contained(geom, id)
  {
    found := [];
    var ids := geom.Keys;
    while ids != {}
      invariant ids <= geom.Keys
      invariant found == [] <==> forall id :: id in geom && id !in ids ==> Contained(geom, id)
      decreases ids
    {
      var id :| id in ids;
      ids := ids - {id};
      var s := geom[id];
      if s.parent in geom && !Fits(s.rect, geom[s.parent].rect) {
        found := found + [OutOfBounds(id, s.parent)];
      }
    }
  }

  // ---------------------------------------------------------------- children lists against pairs

  lemma {:induction false} ChildrenMembers<Id>(shapes: seq<Shape<Id>>, p: Id)
    ensures forall s :: s in Children(shapes, p) <==> s in shapes && s.parent == p
  {
    if |shapes| > 0 {
      ChildrenMembers(shapes[..|shapes| - 1], p);
      assert shapes == shapes[..|shapes| - 1] + [shapes[|shapes| - 1]];
    }
  }

  ghost predicate SeparateBelow<Id>(shapes: seq<Shape<Id>>, p: Id) {
    forall i, j :: 0 <= i < j < |shapes| && shapes[i].parent == p && shapes[j].parent == p ==>
      !Overlap(shapes[i].rect, shapes[j].rect)
  }

  ghost predicate ClearOf<Id>(shapes: seq<Shape<Id>>, p: Id, s: Shape<Id>) {
    forall i :: 0 <= i < |shapes| && shapes[i].parent == p ==> !Overlap(shapes[i].rect, s.rect)
  }

  lemma SeparateBelowOneMore<Id>(shapes: seq<Shape<Id>>, p: Id, s: Shape<Id>)
    ensures SeparateBelow(shapes + [s], p) <==> SeparateBelow(shapes, p) && (s.parent == p ==> ClearOf(shapes, p, s))
  {
    var more := shapes + [s];
    assert more[|shapes|] == s;
    if SeparateBelow(more, p) {
      forall i, j | 0 <= i < j < |shapes| && shapes[i].parent == p && shapes[j].parent == p
        ensures !Overlap(shapes[i].rect, shapes[j].rect)
      {
        assert more[i] == shapes[i] && more[j] == shapes[j];
      }
      forall i | s.parent == p && 0 <= i < |shapes| && shapes[i].parent == p ensures !Overlap(shapes[i].rect, s.rect) {
        assert more[i] == shapes[i];
      }
    }
  }

  lemma ClearOfChildren<Id>(shapes: seq<Shape<Id>>, p: Id, s: Shape<Id>)
    ensures ClearOf(shapes, p, s) <==> forall t :: t in Children(shapes, p) ==> !Overlap(t.rect, s.rect)
  {
    ChildrenMembers(shapes, p);
    if forall t :: t in Children(shapes, p) ==> !Overlap(t.rect, s.rect) {
      forall i | 0 <= i < |shapes| && shapes[i].parent == p ensures !Overlap(shapes[i].rect, s.rect) {
        assert shapes[i] in Children(shapes, p);
      }
    }
  }

  /** The children of `p` are separate exactly when the shapes with that parent are, pair by pair. */
  lemma {:induction false} ChildrenSeparate<Id>(shapes: seq<Shape<Id>>, p: Id)
    ensures Separate(Children(shapes, p)) <==> SeparateBelow(shapes, p)
  {
    if |shapes| > 0 {
      var init, last := shapes[..|shapes| - 1], shapes[|shapes| - 1];
      assert shapes == init + [last];
      ChildrenSeparate(init, p);
      SeparateBelowOneMore(init, p, last);
      SeparateOneMore(Children(init, p), last);
      ClearOfChildren(init, p, last);
    }
  }

  lemma SeparateOneMore<Id>(items: seq<Shape<Id>>, s: Shape<Id>)
    ensures Separate(items + [s]) <==> Separate(items) && forall t :: t in items ==> !Overlap(t.rect, s.rect)
  {
    var more := items + [s];
    if Separate(more) {
      forall i, j | 0 <= i < j < |items| ensures !Overlap(items[i].rect, items[j].rect) {
        assert more[i] == items[i] && more[j] == items[j];
      }
      forall t | t in items ensures !Overlap(t.rect, s.rect) {
        var i :| 0 <= i < |items| && items[i] == t;
        assert more[i] == t && more[|items|] == s;
      }
    }
  }

  lemma SeparateSiblings<Id(!new)>(shapes: seq<Shape<Id>>, parents: set<Id>)
    requires forall s :: s in shapes ==> s.parent in parents
    ensures (forall p :: p in parents ==> Separate(Children(shapes, p))) <==>
            (forall i, j :: 0 <= i < j < |shapes| && shapes[i].parent == shapes[j].parent ==>
               !Overlap(shapes[i].rect, shapes[j].rect))
  {
    forall p ensures Separate(Children(shapes, p)) <==> SeparateBelow(shapes, p) {
      ChildrenSeparate(shapes, p);
    }
    if forall p :: p in parents ==> Separate(Children(shapes, p)) {
      forall i, j | 0 <= i < j < |shapes| && shapes[i].parent == shapes[j].parent
        ensures !Overlap(shapes[i].rect, shapes[j].rect)
      {
        var p := shapes[i].parent;
        assert shapes[i] in shapes && Separate(Children(shapes, p));
        assert SeparateBelow(shapes, p);
      }
    }
  }
}
