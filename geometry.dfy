/** World-space geometry of the annotator: points, rectangle annotations as the
    user drew them, and the sprite each annotation is rendered as. */
module Geometry {

  /** A world-space point. Coordinates are unbounded integers. */
  datatype Point = Point(x: int, y: int)

  /** An annotation record. `start` is where the drag began, `end` where the
      pointer is (or was last seen); no order between them is enforced. */
  datatype Annotation = Rect(start: Point, end: Point)

  /** A rendered rectangle: the corner it is anchored at (its bottom-left in
      world space) and its width and height. */
  datatype Sprite = Sprite(corner: Point, size: Point)

  function Min(a: int, b: int): (m: int) { if a <= b then a else b }

  function Max(a: int, b: int): (m: int) { if a <= b then b else a }

  /** The sprite an annotation is drawn as: the corner is the componentwise
      minimum of the two endpoints and the size is the componentwise maximum
      minus that minimum. The contract says that corner and far corner are the
      tightest box around both endpoints on each axis. */
  function SpriteOf(a: Annotation): (s: Sprite)
    ensures s.size.x >= 0 && s.size.y >= 0
    ensures s.corner.x <= a.start.x && s.corner.x <= a.end.x
    ensures s.corner.x == a.start.x || s.corner.x == a.end.x
    ensures s.corner.y <= a.start.y && s.corner.y <= a.end.y
    ensures s.corner.y == a.start.y || s.corner.y == a.end.y
    ensures s.corner.x + s.size.x >= a.start.x && s.corner.x + s.size.x >= a.end.x
    ensures s.corner.x + s.size.x == a.start.x || s.corner.x + s.size.x == a.end.x
    ensures s.corner.y + s.size.y >= a.start.y && s.corner.y + s.size.y >= a.end.y
    ensures s.corner.y + s.size.y == a.start.y || s.corner.y + s.size.y == a.end.y
  {
    var lo := Point(Min(a.start.x, a.end.x), Min(a.start.y, a.end.y));
    var hi := Point(Max(a.start.x, a.end.x), Max(a.start.y, a.end.y));
    Sprite(lo, Point(hi.x - lo.x, hi.y - lo.y))
  }

  /** The sprite does not depend on the direction of the drag. */
  lemma SpriteSymmetric(p: Point, q: Point)
    ensures SpriteOf(Rect(p, q)) == SpriteOf(Rect(q, p))
  {
  }

  /** A click without movement is a zero-sized sprite at the click point. */
  lemma SpriteDegenerate(p: Point)
    ensures SpriteOf(Rect(p, p)) == Sprite(p, Point(0, 0))
  {
  }

  /** A drag from (10, 10) back to (2, 6) is drawn from (2, 6) with size (8, 4). */
  lemma SpriteOfBackwardDrag()
    ensures SpriteOf(Rect(Point(10, 10), Point(2, 6))) == Sprite(Point(2, 6), Point(8, 4))
  {
  }

  /** `v` lies between `a` and `b`, whichever of them is smaller. */
  predicate Between(a: int, b: int, v: int)
  {
    (a <= v <= b) || (b <= v <= a)
  }

  /** The sprite covers point `q`. */
  predicate Covers(s: Sprite, q: Point)
  {
    s.corner.x <= q.x <= s.corner.x + s.size.x && s.corner.y <= q.y <= s.corner.y + s.size.y
  }

  /** The sprite covers exactly the points lying between the two endpoints of
      the annotation on both axes. */
  lemma SpriteCoversRect(a: Annotation, q: Point)
    ensures Covers(SpriteOf(a), q) <==> Between(a.start.x, a.end.x, q.x) && Between(a.start.y, a.end.y, q.y)
  {
  }

  /** The sprites of a store of annotations, one per record and in the same
      order. */
  function Render(store: seq<Annotation>): (r: seq<Sprite>)
    ensures |r| == |store|
    ensures forall i :: 0 <= i < |store| ==> r[i] == SpriteOf(store[i])
  {
    if store == [] then [] else Render(store[..|store| - 1]) + [SpriteOf(store[|store| - 1])]
  }

  /** Rendering a store extended by one record appends that record's sprite. */
  lemma RenderSnoc(store: seq<Annotation>, a: Annotation)
    ensures Render(store + [a]) == Render(store) + [SpriteOf(a)]
  {
  }

  /** The multiset of sprites depends only on the multiset of records: the
      rendered set is an order-independent image of the store. */
  lemma {:induction false} RenderMultiset(s: seq<Annotation>, t: seq<Annotation>)
    requires multiset(s) == multiset(t)
    ensures multiset(Render(s)) == multiset(Render(t))
    decreases |s|
  {
    if s == [] {
      assert |t| == |multiset(t)| == 0;
    } else {
      var s', a := s[..|s| - 1], s[|s| - 1];
      var k := MatchLast(s, t);
      var front, back := t[..k], t[k + 1..];
      assert s' + [a] == s;
      SplitAt(t, k);
      RenderMultiset(s', front + back);
      RenderInsert(s', a, front, back);
    }
  }

  /** The last record of `s` sits at some position `k` of `t`, and what is left
      of both on removing it still has the same multiset. */
  lemma MatchLast(s: seq<Annotation>, t: seq<Annotation>) returns (k: nat)
    requires s != [] && multiset(s) == multiset(t)
    ensures k < |t| && t[k] == s[|s| - 1]
    ensures multiset(s[..|s| - 1]) == multiset(t[..k] + t[k + 1..])
  {
    var s', a := s[..|s| - 1], s[|s| - 1];
    assert s == s' + [a];
    assert a in multiset(t);
    k :| 0 <= k < |t| && t[k] == a;
    var front, back := t[..k], t[k + 1..];
    SplitAt(t, k);
    MultisetSplit(front, a, back);
    MultisetSplit(s', a, []);
    assert s' + [a] + [] == s;
    Cancel(multiset(s'), multiset(front + back), a);
  }

  /** Inserting the same record into two stores with the same rendered
      multiset keeps their rendered multisets equal. */
  lemma RenderInsert(s: seq<Annotation>, a: Annotation, front: seq<Annotation>, back: seq<Annotation>)
    requires multiset(Render(s)) == multiset(Render(front + back))
    ensures multiset(Render(s + [a])) == multiset(Render(front + [a] + back))
  {
    var sa := SpriteOf(a);
    var rs, rf, rb := Render(s), Render(front), Render(back);
    RenderSnoc(s, a);
    RenderSplit(front, a, back);
    MultisetSplit(rf, sa, rb);
    MultisetSplit(rs, sa, []);
    assert rs + [sa] + [] == Render(s + [a]);
    assert multiset(Render(s + [a])) == multiset(rs) + multiset{sa};
    assert multiset(Render(front + [a] + back)) == multiset(rf) + multiset{sa} + multiset(rb);
  }

  lemma Cancel<T>(m: multiset<T>, n: multiset<T>, a: T)
    requires m + multiset{a} == n + multiset{a}
    ensures m == n
  {
    assert forall y :: m[y] == (m + multiset{a})[y] - multiset{a}[y];
    assert forall y :: n[y] == (n + multiset{a})[y] - multiset{a}[y];
  }

  lemma SplitAt<T>(t: seq<T>, k: nat)
    requires k < |t|
    ensures t == t[..k] + [t[k]] + t[k + 1..]
  {
  }

  lemma MultisetSplit<T>(a: seq<T>, x: T, b: seq<T>)
    ensures multiset(a + [x] + b) == multiset(a) + multiset{x} + multiset(b)
    ensures multiset(a + b) == multiset(a) + multiset(b)
  {
  }

  lemma RenderSplit(front: seq<Annotation>, x: Annotation, back: seq<Annotation>)
    ensures Render(front + [x] + back) == Render(front) + [SpriteOf(x)] + Render(back)
    ensures Render(front + back) == Render(front) + Render(back)
  {
  }
}
