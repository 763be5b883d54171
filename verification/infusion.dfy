/**
 * Infusion: one step of feeding a brighter item into a base item, and a
 * Path, the left fold of such steps along a chain of items.
 */
module Infusion {
  import opened Items

  /** Legendary marks spent on each infusion of a chain. */
  const Cost: int := 3

  function Abs(x: int): nat {
    if x < 0 then -x else x
  }

  /**
   * `r` is an integer nearest to tenths/10, and an even one when tenths/10
   * lies exactly halfway between two integers (Python 3's `round`).
   */
  predicate NearestEven(tenths: int, r: int) {
    && 2 * Abs(tenths - 10 * r) <= 10
    && (2 * Abs(tenths - 10 * r) == 10 ==> r % 2 == 0)
  }

  /** Round tenths/10 to the nearest integer, halves to even. */
  function RoundHalfEven(tenths: int): (r: int)
    ensures NearestEven(tenths, r)
  {
    var q, rem := tenths / 10, tenths % 10;
    if rem < 5 then q
    else if rem > 5 then q + 1
    else if q % 2 == 0 then q
    else q + 1
  }

  /** There is exactly one nearest-even rounding. */
  lemma NearestEvenUnique(tenths: int, a: int, b: int)
    requires NearestEven(tenths, a) && NearestEven(tenths, b)
    ensures a == b
  {
  }

  /** The close-range cutoff: 6, minus 2 for an exotic base, plus 1 for an exotic target. */
  function Threshold(base: Item, target: Item): (r: int)
    ensures 4 <= r <= 7
    ensures r <= 5 <==> base.quality == Exotic
    ensures r % 2 == 1 <==> target.quality == Exotic
  {
    6 - (if base.quality == Exotic then 2 else 0) + (if target.quality == Exotic then 1 else 0)
  }

  /** The far-range share of the gap, in tenths: 70% for an exotic base, else 80%. */
  function RatioTenths(base: Item): (r: int)
    ensures r == 7 || r == 8
    ensures r == 7 <==> base.quality == Exotic
  {
    if base.quality == Exotic then 7 else 8
  }

  /**
   * `Path.infuse(base, target)`. Within the close range the result is the
   * target item itself, quality included; beyond it the base keeps its
   * quality and gains the rounded far-range share of the gap.
   */
  function Infuse(base: Item, target: Item): (r: Item)
    ensures target.light - base.light <= Threshold(base, target) ==> r == target
    ensures target.light - base.light > Threshold(base, target) ==>
      && r.quality == base.quality
      && base.light < r.light < target.light
      && NearestEven((target.light - base.light) * RatioTenths(base), r.light - base.light)
    ensures r.light <= target.light
    ensures base.light <= target.light ==> base.light <= r.light
  {
    var gap := target.light - base.light;
    if gap <= Threshold(base, target) then
      target
    else
      var gain := RoundHalfEven(gap * RatioTenths(base));
      assert 0 < gain < gap by { PenaltyGainBounds(gap, RatioTenths(base), Threshold(base, target), gain); }
      Item(base.light + gain, base.quality)
  }

  /** A gap beyond the cutoff always yields a gain strictly inside it. */
  lemma PenaltyGainBounds(gap: int, tenths: int, threshold: int, gain: int)
    requires tenths == 7 || tenths == 8
    requires tenths == 8 ==> threshold >= 6
    requires threshold >= 4 && gap > threshold
    requires NearestEven(gap * tenths, gain)
    ensures 0 < gain < gap
  {
  }

  /**
   * With an 80% share the exact gain is never a half, so the rounding mode
   * only matters for an exotic base.
   */
  lemma NoTieAtEightTenths(gap: int)
    ensures (gap * 8) % 10 != 5
  {
  }

  /**
   * The target's quality alone decides a direct infusion seven lights up: an
   * exotic target is within the close range and is returned as it is, while
   * a legendary one of the same light is beyond it and gains only six.
   */
  lemma TargetQualityDecides()
    ensures Infuse(Item(300, Legendary), Item(307, Exotic)) == Item(307, Exotic)
    ensures Infuse(Item(300, Legendary), Item(307, Legendary)) == Item(306, Legendary)
  {
  }

  /** The cases listed beside `Path.infuse`, base on the left. */
  lemma InfuseExamples()
    // exotic base, non-exotic target: close range 4, far range 70%
    ensures Infuse(Item(290, Exotic), Item(298, Legendary)) == Item(296, Exotic)
    ensures Infuse(Item(296, Exotic), Item(300, Legendary)) == Item(300, Legendary)
    ensures Infuse(Item(290, Exotic), Item(295, Legendary)) == Item(294, Exotic)
    // exotic base, exotic target: close range 5, far range 70%
    ensures Infuse(Item(300, Exotic), Item(310, Exotic)) == Item(307, Exotic)
    ensures Infuse(Item(290, Exotic), Item(310, Exotic)) == Item(304, Exotic)
    // non-exotic base, non-exotic target: close range 6, far range 80%
    ensures Infuse(Item(294, Legendary), Item(300, Legendary)) == Item(300, Legendary)
    ensures Infuse(Item(290, Legendary), Item(295, Legendary)) == Item(295, Legendary)
    // non-exotic base, exotic target: close range 7, far range 80%
    ensures Infuse(Item(299, Legendary), Item(310, Exotic)) == Item(308, Legendary)
    ensures Infuse(Item(293, Legendary), Item(300, Exotic)) == Item(300, Exotic)
    ensures Infuse(Item(298, Legendary), Item(310, Exotic)) == Item(308, Legendary)
    // a rare base behaves as a legendary one
    ensures Infuse(Item(290, Legendary), Item(310, Legendary)) == Item(306, Legendary)
    ensures Infuse(Item(290, Rare), Item(310, Legendary)) == Item(306, Rare)
    // an exotic base over a legendary target ten lights up
    ensures Infuse(Item(300, Exotic), Item(310, Legendary)) == Item(307, Exotic)
  {
  }

  /**
   * Infuse `acc` with each item of `rest` in turn, as `functools.reduce`
   * does. On an ascending chain that starts no brighter than its first step,
   * the result lies between the accumulator and the last step, strictly
   * above the accumulator when the last step is.
   */
  function FoldFrom(acc: Item, rest: seq<Item>): (r: Item)
    ensures |rest| == 0 ==> r == acc
    ensures |rest| > 0 ==> r.light <= rest[|rest| - 1].light
    ensures |rest| > 0 && acc.light <= rest[0].light && Ascending(rest) ==>
      && acc.light <= r.light
      && (acc.light < rest[|rest| - 1].light ==> acc.light < r.light)
    decreases |rest|
  {
    if |rest| == 0 then acc else FoldFrom(Infuse(acc, rest[0]), rest[1..])
  }

  /** `functools.reduce(Path.infuse, steps)`. */
  function Reduce(steps: seq<Item>): (r: Item)
    requires |steps| > 0
    ensures |steps| == 1 ==> r == steps[0]
    ensures r.light <= steps[|steps| - 1].light
  {
    FoldFrom(steps[0], steps[1..])
  }

  /** Appending a step infuses the previous result with it: a left fold. */
  lemma {:induction false} FoldFromSnoc(acc: Item, rest: seq<Item>, x: Item)
    ensures FoldFrom(acc, rest + [x]) == Infuse(FoldFrom(acc, rest), x)
    decreases |rest|
  {
    if |rest| > 0 {
      assert (rest + [x])[1..] == rest[1..] + [x];
      FoldFromSnoc(Infuse(acc, rest[0]), rest[1..], x);
    }
  }

  lemma ReduceSnoc(steps: seq<Item>, x: Item)
    requires |steps| > 0
    ensures Reduce(steps + [x]) == Infuse(Reduce(steps), x)
  {
    assert (steps + [x])[1..] == steps[1..] + [x];
    FoldFromSnoc(steps[0], steps[1..], x);
  }

  /** A chain of infusions with its mark cost and resulting item. */
  datatype Path = Path(steps: seq<Item>, cost: int, item: Item, light: int)

  /** `Path(steps)`: cost 3 marks per infusion, item the fold of the steps. */
  function MakePath(steps: seq<Item>): (p: Path)
    requires |steps| > 0
    ensures p.steps == steps && p.light == p.item.light
    ensures p.item == Reduce(steps)
    ensures p.cost == Cost * (|steps| - 1)
    ensures p.light <= steps[|steps| - 1].light
  {
    var item := Reduce(steps);
    Path(steps, (|steps| - 1) * Cost, item, item.light)
  }

  /**
   * A path of one step is that item at no cost; each further step infuses
   * the path's item with it and costs one more infusion.
   */
  lemma MakePathSnoc(steps: seq<Item>, x: Item)
    requires |steps| > 0
    ensures MakePath([x]).item == x && MakePath([x]).cost == 0
    ensures MakePath(steps + [x]).item == Infuse(MakePath(steps).item, x)
    ensures MakePath(steps + [x]).cost == MakePath(steps).cost + Cost
  {
    ReduceSnoc(steps, x);
  }

  /**
   * Walking up an ascending chain never ends below where it started, and
   * ends strictly above it when the chain climbs at all.
   */
  lemma AscendingPath(steps: seq<Item>)
    requires |steps| > 0 && Ascending(steps)
    ensures steps[0].light <= MakePath(steps).light
    ensures steps[0].light < steps[|steps| - 1].light ==> steps[0].light < MakePath(steps).light
  {
    if |steps| > 1 {
      assert Ascending(steps[1..]) && steps[0].light <= steps[1..][0].light;
    }
  }

  /** A two-step path is a single infusion. */
  lemma DirectPath(base: Item, target: Item)
    ensures MakePath([base, target]).item == Infuse(base, target)
    ensures MakePath([base, target]).cost == Cost
  {
    assert [base, target][1..] == [target];
  }

  /** A path made of three steps infuses twice, in order. */
  lemma ThreeStepPath(base: Item, mid: Item, target: Item)
    ensures MakePath([base, mid, target]).item == Infuse(Infuse(base, mid), target)
    ensures MakePath([base, mid, target]).cost == 2 * Cost
  {
    assert [base, mid, target][1..] == [mid, target];
    assert [mid, target][1..] == [target];
    assert FoldFrom(Infuse(base, mid), [target]) == FoldFrom(Infuse(Infuse(base, mid), target), []);
  }
}
