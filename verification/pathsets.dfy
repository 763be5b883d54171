/**
 * PathSets: the part of `Paths(base, items)` after pruning, which walks
 * every chain from the base to the brightest candidate and picks the
 * best-light and least-cost paths.
 */
module PathSets {
  import opened Items
  import opened Infusion
  import opened Sorting
  import opened Candidates
  import opened Enumeration
  import opened Selection

  /** The fields a `Paths` object ends up with. */
  datatype PathSet = PathSet(
    base: Item,
    items: seq<Item>,
    target: Item,
    others: seq<Item>,
    paths: seq<Path>,
    bestLight: Path,
    leastCost: Path)

  function PathLight(p: Path): int {
    p.light
  }

  /** `[Path(perm) for perm in perms]`. */
  function MakePaths(chains: seq<seq<Item>>): (r: seq<Path>)
    requires forall i :: 0 <= i < |chains| ==> |chains[i]| > 0
    ensures |r| == |chains|
    ensures forall i :: 0 <= i < |chains| ==> r[i] == MakePath(chains[i])
  {
    seq(|chains|, i requires 0 <= i < |chains| => MakePath(chains[i]))
  }

  /** A walked path is the path along one of the chains. */
  lemma PathIndex(chains: seq<seq<Item>>, p: Path) returns (k: nat)
    requires forall i :: 0 <= i < |chains| ==> |chains[i]| > 0
    requires p in MakePaths(chains)
    ensures k < |chains| && p == MakePath(chains[k])
  {
    var paths := MakePaths(chains);
    k :| 0 <= k < |paths| && paths[k] == p;
  }

  /**
   * Every path through the pruned candidates runs from the base to the
   * target, costs 3 marks per step and ends strictly brighter than the base
   * and no brighter than the target.
   */
  lemma ChainPathsBounded(base: Item, items: seq<Item>, p: Path)
    requires |items| > 0 && Ascending(items)
    requires forall i :: 0 <= i < |items| ==> items[i].light > base.light
    requires p in MakePaths(Permutate(base, items[..|items| - 1], items[|items| - 1]))
    ensures |p.steps| >= 2 && p.steps[0] == base && p.steps[|p.steps| - 1] == items[|items| - 1]
    ensures p.cost == Cost * (|p.steps| - 1)
    ensures base.light < p.light <= items[|items| - 1].light
  {
    var target, others := items[|items| - 1], items[..|items| - 1];
    var idx := PathSelection(base, others, target, p);
    OthersBetween(base, items, others, target);
    ChainPathBounded(base, others, target, idx);
  }

  /** Each walked path is the path through some selection of the middle items. */
  lemma PathSelection(low: Item, mid: seq<Item>, high: Item, p: Path) returns (idx: seq<nat>)
    requires p in MakePaths(Permutate(low, mid, high))
    ensures Increasing(idx, 0, |mid|) && p == MakePath(Chain(low, mid, idx, high))
  {
    var k := PathIndex(Permutate(low, mid, high), p);
    idx := PermutateAt(low, mid, high, k);
  }

  /** The same bounds for every path of a rearrangement of the walked chains. */
  lemma AllPathsBounded(base: Item, items: seq<Item>, paths: seq<Path>)
    requires |items| > 0 && Ascending(items)
    requires forall i :: 0 <= i < |items| ==> items[i].light > base.light
    requires multiset(paths) == multiset(MakePaths(Permutate(base, items[..|items| - 1], items[|items| - 1])))
    ensures forall p :: p in paths ==>
      && |p.steps| >= 2 && p.steps[0] == base && p.steps[|p.steps| - 1] == items[|items| - 1]
      && p.cost == Cost * (|p.steps| - 1)
      && base.light < p.light <= items[|items| - 1].light
  {
    forall p | p in paths
      ensures |p.steps| >= 2 && p.steps[0] == base && p.steps[|p.steps| - 1] == items[|items| - 1]
      ensures p.cost == Cost * (|p.steps| - 1)
      ensures base.light < p.light <= items[|items| - 1].light
    {
      assert p in multiset(paths);
      ChainPathsBounded(base, items, p);
    }
  }

  /** The path through one selection of the middle items. */
  lemma ChainPathBounded(base: Item, others: seq<Item>, target: Item, idx: seq<nat>)
    requires Ascending(others) && Increasing(idx, 0, |others|)
    requires forall j :: 0 <= j < |others| ==> base.light <= others[j].light <= target.light
    requires base.light < target.light
    ensures var p := MakePath(Chain(base, others, idx, target));
      && |p.steps| >= 2 && p.steps[0] == base && p.steps[|p.steps| - 1] == target
      && p.cost == Cost * (|p.steps| - 1)
      && base.light < p.light <= target.light
  {
    var chain := Chain(base, others, idx, target);
    ChainAscending(base, others, target, idx);
    AscendingPath(chain);
    assert chain[0] == base && chain[|chain| - 1] == target;
  }

  /** The candidates short of the target ascend between the base and the target. */
  lemma OthersBetween(base: Item, items: seq<Item>, others: seq<Item>, target: Item)
    requires |items| > 0 && Ascending(items)
    requires forall i :: 0 <= i < |items| ==> items[i].light > base.light
    requires others == items[..|items| - 1] && target == items[|items| - 1]
    ensures Ascending(others)
    ensures forall j :: 0 <= j < |others| ==> base.light <= others[j].light <= target.light
    ensures base.light < target.light
  {
    forall j | 0 <= j < |others| ensures base.light <= others[j].light <= target.light {
      assert others[j] == items[j];
    }
  }

  lemma SortedByPathLight(paths: seq<Path>)
    requires SortedBy(paths, PathLight)
    ensures forall i, j :: 0 <= i < j < |paths| ==> paths[i].light <= paths[j].light
  {
  }

  /**
   * What `Paths.__init__` establishes once the candidates are pruned: the
   * target is the brightest candidate and the others are the rest; there is
   * one path per chain of `Paths.permutate`, 2^|others| of them, sorted by
   * light; every path runs from the base to the target, costs 3 marks per
   * step and ends strictly brighter than the base and no brighter than the
   * target; and the two picks are paths that are optimal under their
   * tie-breaks.
   */
  predicate Walked(ps: PathSet) {
    Shaped(ps) && Enumerated(ps) && Ordered(ps) && Bounded(ps) && Picked(ps)
  }

  /** The target is the brightest candidate and the others are the rest. */
  predicate Shaped(ps: PathSet) {
    && |ps.items| > 0
    && ps.target == ps.items[|ps.items| - 1]
    && ps.others == ps.items[..|ps.items| - 1]
  }

  /** One path per chain of `Paths.permutate`, 2^|others| of them. */
  predicate Enumerated(ps: PathSet) {
    && |ps.paths| == Pow2(|ps.others|)
    && multiset(ps.paths) == multiset(MakePaths(Permutate(ps.base, ps.others, ps.target)))
  }

  /** The paths are sorted by light. */
  predicate Ordered(ps: PathSet) {
    forall i, j :: 0 <= i < j < |ps.paths| ==> ps.paths[i].light <= ps.paths[j].light
  }

  /** Every path runs from the base to the target within the light bounds. */
  predicate Bounded(ps: PathSet) {
    forall p :: p in ps.paths ==>
      && |p.steps| >= 2 && p.steps[0] == ps.base && p.steps[|p.steps| - 1] == ps.target
      && p.cost == Cost * (|p.steps| - 1)
      && ps.base.light < p.light <= ps.target.light
  }

  /** The two picks are paths, each optimal under its tie-break. */
  predicate Picked(ps: PathSet) {
    && ps.bestLight in ps.paths
    && ps.leastCost in ps.paths
    && (forall p :: p in ps.paths ==>
          && p.light <= ps.bestLight.light
          && (p.light == ps.bestLight.light ==> ps.bestLight.cost <= p.cost))
    && (forall p :: p in ps.paths ==>
          && ps.leastCost.cost <= p.cost
          && (p.cost == ps.leastCost.cost ==> p.light <= ps.leastCost.light))
  }

  /**
   * The body of `Paths.__init__` after pruning: enumerate the chains, walk
   * each into a Path, sort by light and scan for the two picks.
   */
  method Walk(base: Item, items: seq<Item>) returns (ps: PathSet)
    requires |items| > 0 && Ascending(items)
    requires forall i :: 0 <= i < |items| ==> items[i].light > base.light
    ensures ps.base == base && ps.items == items
    ensures Walked(ps)
  {
    var target, others := items[|items| - 1], items[..|items| - 1];
    var paths := SortBy(MakePaths(Permutate(base, others, target)), PathLight);
    var best, least := Scan(paths);
    ps := PathSet(base, items, target, others, paths, paths[best], paths[least]);
    EnumeratedPaths(ps);
    SortedByPathLight(paths);
    BoundedPaths(ps);
    PickedPaths(ps, best, least);
  }

  /** Sorting the walked chains keeps one path per chain. */
  lemma EnumeratedPaths(ps: PathSet)
    requires ps.paths == SortBy(MakePaths(Permutate(ps.base, ps.others, ps.target)), PathLight)
    ensures Enumerated(ps)
  {
  }

  /** Every path, in whatever order, keeps the bounds of the chain it walks. */
  lemma BoundedPaths(ps: PathSet)
    requires Shaped(ps) && Ascending(ps.items)
    requires forall i :: 0 <= i < |ps.items| ==> ps.items[i].light > ps.base.light
    requires multiset(ps.paths) == multiset(MakePaths(Permutate(ps.base, ps.others, ps.target)))
    ensures Bounded(ps)
  {
    AllPathsBounded(ps.base, ps.items, ps.paths);
  }

  /** The scanned positions give the two optimal picks. */
  lemma PickedPaths(ps: PathSet, best: nat, least: nat)
    requires IsBestLight(ps.paths, best) && IsLeastCost(ps.paths, least)
    requires ps.bestLight == ps.paths[best] && ps.leastCost == ps.paths[least]
    ensures Picked(ps)
  {
    PicksOptimal(ps.paths, best, least);
  }

}
