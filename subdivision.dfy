/** `subdivide` of artp5/sketch.js: the recursive split of the canvas into
    cells, each leaf drawn as a filled rectangle or as the largest circle
    centred in it. Drawing calls become marks; colours and alpha are left out.

    Every call of `subdivide` draws its own random numbers. They come from
    `draws`, indexed by the path from the root call (`false` for the first,
    `true` for the second recursive call), so that each call gets its own. */
module Subdivision {
  import opened P5Random

  datatype Rect = Rect(x: real, y: real, w: real, h: real)

  /** The `random()` values one call consumes, each in [0, 1): the minimum
      size, the early-stop roll and its threshold, the split ratio and the
      choice between rectangle and circle. */
  datatype Draw = Draw(minSize: real, stopRoll: real, stopChance: real, ratio: real, shape: real)

  predicate DrawOk(d: Draw) {
    Unit(d.minSize) && Unit(d.stopRoll) && Unit(d.stopChance) && Unit(d.ratio) && Unit(d.shape)
  }

  datatype Mark =
    | SplitLine(x1: real, y1: real, x2: real, y2: real)
    | LeafRect(cell: Rect)
    | LeafCircle(cell: Rect)

  function Min(a: real, b: real): real {
    if a < b then a else b
  }

  /** The disc `circle(x + w/2, y + h/2, min(w, h))` drawn for a circle leaf:
      it fits inside its cell. */
  function Disc(c: Rect): (r: (real, real, real))
    requires c.w >= 0.0 && c.h >= 0.0
    ensures c.x <= r.0 - r.2 / 2.0 && r.0 + r.2 / 2.0 <= c.x + c.w
    ensures c.y <= r.1 - r.2 / 2.0 && r.1 + r.2 / 2.0 <= c.y + c.h
  {
    (c.x + c.w / 2.0, c.y + c.h / 2.0, Min(c.w, c.h))
  }

  /** `random(20, 60)`. */
  function MinSize(d: Draw): real
    requires DrawOk(d)
  {
    Between(20.0, 60.0, d.minSize)
  }

  /** The leaf test: too narrow, too low, or `random() < random(0.05, 0.25)`. */
  predicate IsLeaf(r: Rect, d: Draw)
    requires DrawOk(d)
  {
    r.w < MinSize(d) || r.h < MinSize(d) || d.stopRoll < Between(0.05, 0.25, d.stopChance)
  }

  /** The leaf mark: a rectangle when `random() > 0.3`, otherwise a circle. */
  function Leaf(r: Rect, d: Draw): Mark {
    if d.shape > 0.3 then LeafRect(r) else LeafCircle(r)
  }

  /** The split of a cell that is not a leaf: along `x` at `x + w * t` when it
      is wider than high, along `y` at `y + h * t` otherwise. */
  function Halves(r: Rect, t: real): (Rect, Rect) {
    if r.w > r.h then
      var splitX := r.x + Scale(r.w, t);
      (Rect(r.x, r.y, splitX - r.x, r.h), Rect(splitX, r.y, r.w - (splitX - r.x), r.h))
    else
      var splitY := r.y + Scale(r.h, t);
      (Rect(r.x, r.y, r.w, splitY - r.y), Rect(r.x, splitY, r.w, r.h - (splitY - r.y)))
  }

  /** The line drawn along the split. */
  function Cut(r: Rect, t: real): Mark {
    if r.w > r.h then
      var splitX := r.x + Scale(r.w, t);
      SplitLine(splitX, r.y, splitX, r.y + r.h)
    else
      var splitY := r.y + Scale(r.h, t);
      SplitLine(r.x, splitY, r.x + r.w, splitY)
  }

  /** `random(0.2, 0.8)`. */
  function Ratio(d: Draw): real
    requires DrawOk(d)
  {
    Between(0.2, 0.8, d.ratio)
  }

  predicate Within(a: Rect, b: Rect) {
    b.x <= a.x && a.x + a.w <= b.x + b.w && b.y <= a.y && a.y + a.h <= b.y + b.h
  }

  /** The interiors of the two rectangles meet. */
  predicate Overlap(a: Rect, b: Rect) {
    a.x < b.x + b.w && b.x < a.x + a.w && a.y < b.y + b.h && b.y < a.y + a.h
  }

  function Area(r: Rect): real {
    r.w * r.h
  }

  lemma ScaleInside(a: real, t: real)
    requires a >= 20.0 && 0.2 <= t < 0.8
    ensures 4.0 <= Scale(a, t) <= a - 4.0
  {
    assert a * t - 0.2 * a == a * (t - 0.2);
    assert 0.8 * a - a * t == a * (0.8 - t);
  }

  /** The two children tile the parent: side by side along the longer side
      (along `x` exactly when `w > h`), lengths adding up to the parent's,
      each at least 4 shorter than it and at least 4 long. */
  lemma {:induction false} HalvesTile(r: Rect, t: real)
    requires r.w >= 20.0 && r.h >= 20.0 && 0.2 <= t < 0.8
    ensures var (a, b) := Halves(r, t);
      Within(a, r) && Within(b, r) && !Overlap(a, b) && Area(a) + Area(b) == Area(r) &&
      (r.w > r.h ==>
        a.x == r.x && b.x == a.x + a.w && a.w + b.w == r.w && a.h == r.h && b.h == r.h &&
        a.y == r.y && b.y == r.y && 4.0 <= a.w <= r.w - 4.0 && 4.0 <= b.w <= r.w - 4.0) &&
      (r.w <= r.h ==>
        a.y == r.y && b.y == a.y + a.h && a.h + b.h == r.h && a.w == r.w && b.w == r.w &&
        a.x == r.x && b.x == r.x && 4.0 <= a.h <= r.h - 4.0 && 4.0 <= b.h <= r.h - 4.0)
  {
    var (a, b) := Halves(r, t);
    if r.w > r.h {
      ScaleInside(r.w, t);
      AreaSplit(a.w, b.w, r.h);
    } else {
      ScaleInside(r.h, t);
      AreaSplit(a.h, b.h, r.w);
      assert Area(a) == r.w * a.h && Area(b) == r.w * b.h;
    }
  }

  lemma AreaSplit(p: real, q: real, s: real)
    ensures p * s + q * s == (p + q) * s && s * p + s * q == s * (p + q)
  {
  }

  /** The recursion of `subdivide`, from the cell `r` down: the marks in the
      order they are drawn. */
  function Subdivide(r: Rect, draws: seq<bool> -> Draw, path: seq<bool>): seq<Mark>
    requires r.w >= 0.0 && r.h >= 0.0
    requires forall p :: DrawOk(draws(p))
    decreases (r.w + r.h).Floor
  {
    var d := draws(path);
    if IsLeaf(r, d) then [Leaf(r, d)]
    else
      var t := Ratio(d);
      HalvesTile(r, t);
      var (a, b) := Halves(r, t);
      [Cut(r, t)] + Subdivide(a, draws, path + [false]) + Subdivide(b, draws, path + [true])
  }

  /** `drawRecursiveSubdivision`: the whole canvas. */
  function SubdivideCanvas(width: real, height: real, draws: seq<bool> -> Draw): seq<Mark>
    requires width >= 0.0 && height >= 0.0
    requires forall p :: DrawOk(draws(p))
  {
    Subdivide(Rect(0.0, 0.0, width, height), draws, [])
  }

  /** The cells of the leaf marks, in drawing order. */
  function Cells(ms: seq<Mark>): seq<Rect> {
    if |ms| == 0 then []
    else (if ms[0].SplitLine? then [] else [ms[0].cell]) + Cells(ms[1..])
  }

  function TotalArea(cs: seq<Rect>): real {
    if |cs| == 0 then 0.0 else Area(cs[0]) + TotalArea(cs[1..])
  }

  lemma {:induction false} CellsConcat(ms: seq<Mark>, ns: seq<Mark>)
    ensures Cells(ms + ns) == Cells(ms) + Cells(ns)
  {
    if |ms| > 0 {
      assert (ms + ns)[1..] == ms[1..] + ns;
      CellsConcat(ms[1..], ns);
    } else {
      assert ms + ns == ns;
    }
  }

  lemma {:induction false} TotalAreaConcat(cs: seq<Rect>, ds: seq<Rect>)
    ensures TotalArea(cs + ds) == TotalArea(cs) + TotalArea(ds)
  {
    if |cs| > 0 {
      assert (cs + ds)[1..] == cs[1..] + ds;
      TotalAreaConcat(cs[1..], ds);
    } else {
      assert cs + ds == ds;
    }
  }

  /** A cell that is split is at least 20 by 20, and both halves have
      non-negative sides. */
  lemma SplitSizes(r: Rect, d: Draw)
    requires r.w >= 0.0 && r.h >= 0.0 && DrawOk(d) && !IsLeaf(r, d)
    ensures r.w >= 20.0 && r.h >= 20.0
    ensures var (a, b) := Halves(r, Ratio(d));
      a.w >= 0.0 && a.h >= 0.0 && b.w >= 0.0 && b.h >= 0.0
  {
    assert MinSize(d) >= 20.0;
    HalvesTile(r, Ratio(d));
  }

  /** A split line contributes no cell. */
  lemma {:induction false} CellsSkipLine(m: Mark, rest: seq<Mark>)
    requires m.SplitLine?
    ensures Cells([m] + rest) == Cells(rest)
  {
    assert ([m] + rest)[1..] == rest;
  }

  /** The cells of a split are the first child's cells, then the second's. */
  lemma SplitCells(r: Rect, draws: seq<bool> -> Draw, path: seq<bool>)
    requires r.w >= 0.0 && r.h >= 0.0
    requires forall p :: DrawOk(draws(p))
    requires !IsLeaf(r, draws(path))
    ensures r.w >= 20.0 && r.h >= 20.0
    ensures var (a, b) := Halves(r, Ratio(draws(path)));
      a.w >= 0.0 && a.h >= 0.0 && b.w >= 0.0 && b.h >= 0.0
    ensures var (a, b) := Halves(r, Ratio(draws(path)));
      Cells(Subdivide(r, draws, path)) ==
        Cells(Subdivide(a, draws, path + [false])) + Cells(Subdivide(b, draws, path + [true]))
  {
    var d := draws(path);
    SplitSizes(r, d);
    var t := Ratio(d);
    var (a, b) := Halves(r, t);
    var left := Subdivide(a, draws, path + [false]);
    var right := Subdivide(b, draws, path + [true]);
    assert Subdivide(r, draws, path) == [Cut(r, t)] + (left + right);
    CellsSkipLine(Cut(r, t), left + right);
    CellsConcat(left, right);
  }

  /** A cell narrower or lower than 20, the least minimum size, is never split:
      it is drawn as one leaf; and what is split is split along the longer
      side, with a vertical cut exactly when it is wider than high. */
  lemma SubdivideShape(r: Rect, draws: seq<bool> -> Draw, path: seq<bool>)
    requires r.w >= 0.0 && r.h >= 0.0
    requires forall p :: DrawOk(draws(p))
    ensures r.w < 20.0 || r.h < 20.0 ==> Subdivide(r, draws, path) == [Leaf(r, draws(path))]
    ensures IsLeaf(r, draws(path)) <==> |Subdivide(r, draws, path)| == 1
    ensures !IsLeaf(r, draws(path)) ==>
      Subdivide(r, draws, path)[0].SplitLine? &&
      (Subdivide(r, draws, path)[0].x1 == Subdivide(r, draws, path)[0].x2 <==> r.w > r.h)
    decreases (r.w + r.h).Floor
  {
    var d := draws(path);
    if !IsLeaf(r, d) {
      var t := Ratio(d);
      HalvesTile(r, t);
      var (a, b) := Halves(r, t);
      assert |Subdivide(a, draws, path + [false])| >= 1 by {
        SubdivideShape(a, draws, path + [false]);
      }
      assert r.w > r.h ==> Scale(r.w, t) >= 4.0;
      assert r.w <= r.h ==> Scale(r.h, t) >= 4.0 && r.w > 0.0;
    }
  }

  /** Every leaf cell lies inside the cell being subdivided, has a non-negative
      size, and no two leaf cells overlap. */
  lemma {:induction false} SubdivideTiles(r: Rect, draws: seq<bool> -> Draw, path: seq<bool>)
    requires r.w >= 0.0 && r.h >= 0.0
    requires forall p :: DrawOk(draws(p))
    ensures forall k :: 0 <= k < |Cells(Subdivide(r, draws, path))| ==>
      Within(Cells(Subdivide(r, draws, path))[k], r) &&
      Cells(Subdivide(r, draws, path))[k].w >= 0.0 && Cells(Subdivide(r, draws, path))[k].h >= 0.0
    ensures forall k, l :: 0 <= k < l < |Cells(Subdivide(r, draws, path))| ==>
      !Overlap(Cells(Subdivide(r, draws, path))[k], Cells(Subdivide(r, draws, path))[l])
    ensures TotalArea(Cells(Subdivide(r, draws, path))) == Area(r)
    decreases (r.w + r.h).Floor
  {
    var d := draws(path);
    if IsLeaf(r, d) {
      assert Subdivide(r, draws, path) == [Leaf(r, d)];
      assert Cells([Leaf(r, d)]) == [r] by {
        assert [Leaf(r, d)][1..] == [];
      }
      assert TotalArea([r]) == Area(r) by {
        assert [r][1..] == [];
      }
    } else {
      var t := Ratio(d);
      HalvesTile(r, t);
      var (a, b) := Halves(r, t);
      SubdivideTiles(a, draws, path + [false]);
      SubdivideTiles(b, draws, path + [true]);
      SplitCells(r, draws, path);
      var ca := Cells(Subdivide(a, draws, path + [false]));
      var cb := Cells(Subdivide(b, draws, path + [true]));
      TotalAreaConcat(ca, cb);
      TilesJoin(ca, cb, a, b, r);
    }
  }

  /** `drawRecursiveSubdivision`: the leaves drawn on a `width` x `height`
      canvas lie on it, do not overlap, and cover its whole area. */
  lemma CanvasTiles(width: real, height: real, draws: seq<bool> -> Draw)
    requires width >= 0.0 && height >= 0.0
    requires forall p :: DrawOk(draws(p))
    ensures forall k :: 0 <= k < |Cells(SubdivideCanvas(width, height, draws))| ==>
      Within(Cells(SubdivideCanvas(width, height, draws))[k], Rect(0.0, 0.0, width, height))
    ensures forall k, l :: 0 <= k < l < |Cells(SubdivideCanvas(width, height, draws))| ==>
      !Overlap(Cells(SubdivideCanvas(width, height, draws))[k], Cells(SubdivideCanvas(width, height, draws))[l])
    ensures TotalArea(Cells(SubdivideCanvas(width, height, draws))) == width * height
  {
    var r := Rect(0.0, 0.0, width, height);
    assert SubdivideCanvas(width, height, draws) == Subdivide(r, draws, []);
    assert Area(r) == width * height;
    SubdivideTiles(r, draws, []);
  }

  lemma TilesJoin(ca: seq<Rect>, cb: seq<Rect>, a: Rect, b: Rect, r: Rect)
    requires Within(a, r) && Within(b, r) && !Overlap(a, b)
    requires a.w >= 0.0 && a.h >= 0.0 && b.w >= 0.0 && b.h >= 0.0
    requires (a.x + a.w <= b.x) || (a.y + a.h <= b.y)
    requires forall k :: 0 <= k < |ca| ==> Within(ca[k], a) && ca[k].w >= 0.0 && ca[k].h >= 0.0
    requires forall k :: 0 <= k < |cb| ==> Within(cb[k], b) && cb[k].w >= 0.0 && cb[k].h >= 0.0
    requires forall k, l :: 0 <= k < l < |ca| ==> !Overlap(ca[k], ca[l])
    requires forall k, l :: 0 <= k < l < |cb| ==> !Overlap(cb[k], cb[l])
    ensures forall k :: 0 <= k < |ca + cb| ==>
      Within((ca + cb)[k], r) && (ca + cb)[k].w >= 0.0 && (ca + cb)[k].h >= 0.0
    ensures forall k, l :: 0 <= k < l < |ca + cb| ==> !Overlap((ca + cb)[k], (ca + cb)[l])
  {
    var cs := ca + cb;
    forall k, l | 0 <= k < l < |cs|
      ensures !Overlap(cs[k], cs[l])
    {
      if l < |ca| {
        assert cs[k] == ca[k] && cs[l] == ca[l];
      } else if k >= |ca| {
        assert cs[k] == cb[k - |ca|] && cs[l] == cb[l - |ca|];
      } else {
        assert cs[k] == ca[k] && cs[l] == cb[l - |ca|];
      }
    }
  }
}
