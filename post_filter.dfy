/** The post-processing choice at the end of `generateArt` and the parameter
    choice of `applyFilter` (artp5/sketch.js). The image operations themselves
    are left out; a filter is its kind and its parameter. */
module PostFilter {
  import opened P5Random

  datatype Filter =
    | Blur(radius: int)
    | Posterize(levels: int)
    | Invert
    | Gray
    | Erode
    | Dilate

  datatype PostEffect = ChromaticAberration | FilterEffect | NoEffect

  /** The parameter ranges `applyFilter` can produce. */
  predicate InRange(f: Filter) {
    match f
    case Blur(radius) => 1 <= radius <= 5
    case Posterize(levels) => 2 <= levels <= 7
    case _ => true
  }

  /** `random(Object.keys(filters))` over BLUR, POSTERIZE, INVERT, GRAY,
      ERODE, DILATE, then `int(random(1, 6))` for a blur and
      `int(random(2, 8))` for a posterize; the other four take no value. */
  function ApplyFilter(pick: real, value: real): (f: Filter)
    requires Unit(pick) && Unit(value)
    ensures InRange(f)
  {
    match PickIndex(pick, 6)
    case 0 => Blur(IntBetween(1, 6, value))
    case 1 => Posterize(IntBetween(2, 8, value))
    case 2 => Invert
    case 3 => Gray
    case 4 => Erode
    case _ => Dilate
  }

  /** `random(['chromaticAberration', 'filter', 'none'])`. */
  function ChoosePostEffect(pick: real): PostEffect
    requires Unit(pick)
  {
    match PickIndex(pick, 3)
    case 0 => ChromaticAberration
    case 1 => FilterEffect
    case _ => NoEffect
  }

  function FilterRank(f: Filter): nat {
    match f
    case Blur(_) => 0
    case Posterize(_) => 1
    case Invert => 2
    case Gray => 3
    case Erode => 4
    case Dilate => 5
  }

  /** Every filter with a parameter in range is chosen by some pair of draws,
      so `InRange` is exactly the set of outcomes. */
  lemma {:induction false} ApplyFilterOnto(f: Filter)
    requires InRange(f)
    ensures exists pick, value :: Unit(pick) && Unit(value) && ApplyFilter(pick, value) == f
  {
    PickIndexOnto(6, FilterRank(f));
    var pick :| Unit(pick) && PickIndex(pick, 6) == FilterRank(f);
    match f
    case Blur(radius) =>
      IntBetweenOnto(1, 6, radius);
      var value :| Unit(value) && IntBetween(1, 6, value) == radius;
      assert ApplyFilter(pick, value) == f;
    case Posterize(levels) =>
      IntBetweenOnto(2, 8, levels);
      var value :| Unit(value) && IntBetween(2, 8, value) == levels;
      assert ApplyFilter(pick, value) == f;
    case _ =>
      assert Unit(0.0) && ApplyFilter(pick, 0.0) == f;
  }

  /** Each of the three post effects is chosen by some draw. */
  lemma {:induction false} ChoosePostEffectOnto(e: PostEffect)
    ensures exists pick :: Unit(pick) && ChoosePostEffect(pick) == e
  {
    var k := match e case ChromaticAberration => 0 case FilterEffect => 1 case NoEffect => 2;
    PickIndexOnto(3, k);
    var pick :| Unit(pick) && PickIndex(pick, 3) == k;
    assert ChoosePostEffect(pick) == e;
  }
}
