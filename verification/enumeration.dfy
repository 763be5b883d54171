/**
 * Enumeration: `Paths.permutate`, every chain from the base through an
 * order-preserving selection of the middle items to the target.
 *
 * `itertools.combinations(mid, l)` selects by position, so the chains are
 * described through the selected positions: strictly increasing index
 * sequences into `mid`.
 */
module Enumeration {
  import opened Items

  function Pow2(n: nat): (r: nat)
    ensures r >= 1
  {
    if n == 0 then 1 else 2 * Pow2(n - 1)
  }

  /** The binomial coefficient, by Pascal's rule. */
  function Binom(n: nat, k: nat): nat {
    if k == 0 then 1 else if n == 0 then 0 else Binom(n - 1, k - 1) + Binom(n - 1, k)
  }

  /** Binom(n, l) + Binom(n, l + 1) + ... + Binom(n, n). */
  function SumFrom(n: nat, l: nat): nat
    decreases n + 1 - l
  {
    if l > n then 0 else Binom(n, l) + SumFrom(n, l + 1)
  }

  lemma {:induction false} BinomBeyond(n: nat, k: nat)
    requires k > n
    ensures Binom(n, k) == 0
  {
    if n > 0 {
      BinomBeyond(n - 1, k - 1);
      BinomBeyond(n - 1, k);
    }
  }

  lemma {:induction false} PascalSum(n: nat, l: nat)
    requires l >= 1
    ensures SumFrom(n + 1, l) == SumFrom(n, l - 1) + SumFrom(n, l)
    decreases n + 2 - l
  {
    if l == n + 1 {
      BinomBeyond(n, n + 1);
    } else if l <= n {
      PascalSum(n, l + 1);
    }
  }

  /** The sizes of all subsets add up to 2^n. */
  lemma {:induction false} SumOfBinoms(n: nat)
    ensures SumFrom(n, 0) == Pow2(n)
  {
    if n > 0 {
      SumOfBinoms(n - 1);
      PascalSum(n - 1, 1);
    }
  }

  /** Strictly increasing positions drawn from [lo, n). */
  predicate Increasing(idx: seq<nat>, lo: nat, n: nat) {
    && (forall j :: 0 <= j < |idx| ==> lo <= idx[j] < n)
    && (forall j, k :: 0 <= j < k < |idx| ==> idx[j] < idx[k])
  }

  lemma {:induction false} IncreasingLength(idx: seq<nat>, lo: nat, n: nat)
    requires lo <= n && Increasing(idx, lo, n)
    ensures |idx| <= n - lo
    decreases |idx|
  {
    if |idx| > 0 {
      assert lo <= idx[0] < n;
      assert Increasing(idx[1..], idx[0] + 1, n);
      IncreasingLength(idx[1..], idx[0] + 1, n);
    }
  }

  function Prepend(x: nat, cs: seq<seq<nat>>): (r: seq<seq<nat>>)
    ensures |r| == |cs|
    ensures forall i :: 0 <= i < |cs| ==> r[i] == [x] + cs[i]
  {
    seq(|cs|, i requires 0 <= i < |cs| => [x] + cs[i])
  }

  /**
   * The k-element selections of the positions lo..n-1, in the lexicographic
   * order `itertools.combinations` yields them.
   */
  function Combos(lo: nat, n: nat, k: nat): (r: seq<seq<nat>>)
    requires lo <= n
    ensures |r| == Binom(n - lo, k)
    ensures forall i :: 0 <= i < |r| ==> |r[i]| == k && Increasing(r[i], lo, n)
    decreases n - lo
  {
    if k == 0 then [[]]
    else if lo == n then []
    else Prepend(lo, Combos(lo + 1, n, k - 1)) + Combos(lo + 1, n, k)
  }

  /** No selection is produced twice. */
  lemma {:induction false} CombosDistinct(lo: nat, n: nat, k: nat)
    requires lo <= n
    ensures forall i, j :: 0 <= i < j < |Combos(lo, n, k)| ==> Combos(lo, n, k)[i] != Combos(lo, n, k)[j]
    decreases n - lo
  {
    if k > 0 && lo < n {
      CombosDistinct(lo + 1, n, k - 1);
      CombosDistinct(lo + 1, n, k);
      var first, second := Prepend(lo, Combos(lo + 1, n, k - 1)), Combos(lo + 1, n, k);
      var r := Combos(lo, n, k);
      assert r == first + second;
      forall i, j | 0 <= i < j < |r| ensures r[i] != r[j] {
        if j < |first| {
          assert r[i][1..] == Combos(lo + 1, n, k - 1)[i];
          assert r[j][1..] == Combos(lo + 1, n, k - 1)[j];
        } else if i < |first| {
          assert r[i][0] == lo;
          assert r[j] == second[j - |first|];
          assert r[j][0] > lo;
        } else {
          assert r[i] == second[i - |first|] && r[j] == second[j - |first|];
        }
      }
    }
  }

  /** Every k-element selection of positions lo..n-1 is produced. */
  lemma {:induction false} CombosComplete(lo: nat, n: nat, c: seq<nat>)
    requires lo <= n && Increasing(c, lo, n)
    ensures c in Combos(lo, n, |c|)
    decreases n - lo
  {
    if |c| > 0 {
      assert lo <= c[0] < n;
      if c[0] == lo {
        IncreasingTail(c, lo, n);
        CombosComplete(lo + 1, n, c[1..]);
        CombosWithLow(lo, n, c);
      } else {
        assert Increasing(c, lo + 1, n);
        CombosComplete(lo + 1, n, c);
        CombosWithoutLow(lo, n, c);
      }
    }
  }

  /** A selection starting at lo extends a selection of the positions above lo. */
  lemma CombosWithLow(lo: nat, n: nat, c: seq<nat>)
    requires lo < n && |c| > 0 && c[0] == lo
    requires c[1..] in Combos(lo + 1, n, |c| - 1)
    ensures c in Combos(lo, n, |c|)
  {
    var tail := Combos(lo + 1, n, |c| - 1);
    PrependMember(lo, tail, c[1..]);
    assert c == [lo] + c[1..];
  }

  /** A selection avoiding lo is a selection of the positions above lo. */
  lemma CombosWithoutLow(lo: nat, n: nat, c: seq<nat>)
    requires lo < n && |c| > 0
    requires c in Combos(lo + 1, n, |c|)
    ensures c in Combos(lo, n, |c|)
  {
    var first, rest := Prepend(lo, Combos(lo + 1, n, |c| - 1)), Combos(lo + 1, n, |c|);
    assert Combos(lo, n, |c|) == first + rest;
  }

  lemma IncreasingTail(c: seq<nat>, lo: nat, n: nat)
    requires Increasing(c, lo, n) && |c| > 0
    ensures Increasing(c[1..], c[0] + 1, n)
  {
  }

  lemma PrependMember(x: nat, cs: seq<seq<nat>>, c: seq<nat>)
    requires c in cs
    ensures [x] + c in Prepend(x, cs)
  {
    var i :| 0 <= i < |cs| && cs[i] == c;
    assert Prepend(x, cs)[i] == [x] + c;
  }

  /** The selections of every size from l up to n, smallest first. */
  function BySize(n: nat, l: nat): (r: seq<seq<nat>>)
    ensures |r| == SumFrom(n, l)
    ensures forall i :: 0 <= i < |r| ==> l <= |r[i]| && Increasing(r[i], 0, n)
    decreases n + 1 - l
  {
    if l > n then [] else Combos(0, n, l) + BySize(n, l + 1)
  }

  /** Every selection of positions 0..n-1, grouped by size as `Paths.permutate` emits them. */
  function Subsets(n: nat): (r: seq<seq<nat>>)
    ensures |r| == Pow2(n) && r[0] == []
  {
    SumOfBinoms(n);
    BySize(n, 0)
  }

  lemma {:induction false} BySizeDistinct(n: nat, l: nat)
    ensures forall i, j :: 0 <= i < j < |BySize(n, l)| ==> BySize(n, l)[i] != BySize(n, l)[j]
    decreases n + 1 - l
  {
    if l <= n {
      CombosDistinct(0, n, l);
      BySizeDistinct(n, l + 1);
      var first, second := Combos(0, n, l), BySize(n, l + 1);
      var r := BySize(n, l);
      forall i, j | 0 <= i < j < |r| ensures r[i] != r[j] {
        if j < |first| {
          assert r[i] == first[i] && r[j] == first[j];
        } else if i < |first| {
          assert |r[i]| == l;
          assert r[j] == second[j - |first|];
        } else {
          assert r[i] == second[i - |first|] && r[j] == second[j - |first|];
        }
      }
    }
  }

  lemma {:induction false} BySizeComplete(n: nat, l: nat, c: seq<nat>)
    requires Increasing(c, 0, n) && l <= |c|
    ensures c in BySize(n, l)
    decreases n + 1 - l
  {
    IncreasingLength(c, 0, n);
    assert BySize(n, l) == Combos(0, n, l) + BySize(n, l + 1);
    if l == |c| {
      CombosComplete(0, n, c);
    } else {
      BySizeComplete(n, l + 1, c);
    }
  }

  lemma {:induction false} BySizeGrouped(n: nat, l: nat)
    ensures forall i, j :: 0 <= i < j < |BySize(n, l)| ==> |BySize(n, l)[i]| <= |BySize(n, l)[j]|
    decreases n + 1 - l
  {
    if l <= n {
      BySizeGrouped(n, l + 1);
      var first, second := Combos(0, n, l), BySize(n, l + 1);
      var r := BySize(n, l);
      forall i, j | 0 <= i < j < |r| ensures |r[i]| <= |r[j]| {
        if j < |first| {
          assert r[i] == first[i] && r[j] == first[j];
        } else if i < |first| {
          assert r[i] == first[i];
          assert r[j] == second[j - |first|];
        } else {
          assert r[i] == second[i - |first|] && r[j] == second[j - |first|];
        }
      }
    }
  }

  /**
   * The subsets of positions 0..n-1: 2^n of them, each produced once, each
   * strictly increasing, every increasing selection among them, the empty
   * one first and smaller ones before larger ones.
   */
  lemma SubsetsFacts(n: nat)
    ensures |Subsets(n)| == Pow2(n)
    ensures Subsets(n)[0] == []
    ensures forall i :: 0 <= i < |Subsets(n)| ==> Increasing(Subsets(n)[i], 0, n)
    ensures forall i, j :: 0 <= i < j < |Subsets(n)| ==> Subsets(n)[i] != Subsets(n)[j]
    ensures forall i, j :: 0 <= i < j < |Subsets(n)| ==> |Subsets(n)[i]| <= |Subsets(n)[j]|
    ensures forall c :: Increasing(c, 0, n) ==> c in Subsets(n)
  {
    SumOfBinoms(n);
    BySizeDistinct(n, 0);
    BySizeGrouped(n, 0);
    forall c | Increasing(c, 0, n) ensures c in Subsets(n) {
      BySizeComplete(n, 0, c);
    }
  }

  /** The middle items at the selected positions, in order. */
  function Pick(mid: seq<Item>, idx: seq<nat>): (s: seq<Item>)
    requires Increasing(idx, 0, |mid|)
    ensures |s| == |idx|
    ensures forall j :: 0 <= j < |idx| ==> s[j] == mid[idx[j]]
  {
    seq(|idx|, j requires 0 <= j < |idx| => mid[idx[j]])
  }

  /** `[low] + list(perm) + [high]` for one selection `perm`. */
  function Chain(low: Item, mid: seq<Item>, idx: seq<nat>, high: Item): (c: seq<Item>)
    requires Increasing(idx, 0, |mid|)
    ensures |c| == |idx| + 2 && c[0] == low && c[|c| - 1] == high
    ensures c[1..|c| - 1] == Pick(mid, idx)
  {
    [low] + Pick(mid, idx) + [high]
  }

  function Chains(low: Item, mid: seq<Item>, high: Item, sels: seq<seq<nat>>): (r: seq<seq<Item>>)
    requires forall i :: 0 <= i < |sels| ==> Increasing(sels[i], 0, |mid|)
    ensures |r| == |sels|
    ensures forall i :: 0 <= i < |sels| ==> r[i] == Chain(low, mid, sels[i], high)
  {
    seq(|sels|, i requires 0 <= i < |sels| => Chain(low, mid, sels[i], high))
  }

  /**
   * `Paths.permutate(low, mid, high)`: the direct chain `[low, high]`, then
   * for each size l = 1..|mid| the chains through every l-element selection.
   * There are 2^|mid| chains, the i-th passing through the i-th subset of
   * positions.
   */
  function Permutate(low: Item, mid: seq<Item>, high: Item): (r: seq<seq<Item>>)
    ensures |r| == Pow2(|mid|) == |Subsets(|mid|)|
    ensures r[0] == [low, high]
    ensures forall i :: 0 <= i < |r| ==> |r[i]| >= 2 && r[i][0] == low && r[i][|r[i]| - 1] == high
  {
    var n := |mid|;
    SumOfBinoms(n);
    [[low, high]] + Chains(low, mid, high, BySize(n, 1))
  }

  /** The i-th chain passes through the i-th subset of positions. */
  lemma PermutateSelections(low: Item, mid: seq<Item>, high: Item)
    ensures forall i :: 0 <= i < |Permutate(low, mid, high)| ==>
      && Increasing(Subsets(|mid|)[i], 0, |mid|)
      && Permutate(low, mid, high)[i] == Chain(low, mid, Subsets(|mid|)[i], high)
  {
    var n := |mid|;
    SumOfBinoms(n);
    assert Subsets(n) == [[]] + BySize(n, 1);
  }

  /** The selection behind the k-th chain. */
  lemma PermutateAt(low: Item, mid: seq<Item>, high: Item, k: nat) returns (idx: seq<nat>)
    requires k < |Permutate(low, mid, high)|
    ensures idx == Subsets(|mid|)[k] && Increasing(idx, 0, |mid|)
    ensures Permutate(low, mid, high)[k] == Chain(low, mid, idx, high)
  {
    PermutateSelections(low, mid, high);
    idx := Subsets(|mid|)[k];
  }

  /** Through pairwise distinct middle items, different selections give different chains. */
  lemma ChainInjective(low: Item, mid: seq<Item>, high: Item, a: seq<nat>, b: seq<nat>)
    requires forall i, j :: 0 <= i < j < |mid| ==> mid[i] != mid[j]
    requires Increasing(a, 0, |mid|) && Increasing(b, 0, |mid|)
    ensures Chain(low, mid, a, high) == Chain(low, mid, b, high) ==> a == b
  {
    var ca, cb := Chain(low, mid, a, high), Chain(low, mid, b, high);
    if ca == cb {
      assert Pick(mid, a) == ca[1..|ca| - 1] == cb[1..|cb| - 1] == Pick(mid, b);
      forall j | 0 <= j < |a| ensures a[j] == b[j] {
        assert mid[a[j]] == mid[b[j]];
      }
    }
  }

  /** Every order-preserving selection of the middle items yields one of the chains. */
  lemma PermutateComplete(low: Item, mid: seq<Item>, high: Item, idx: seq<nat>)
    requires Increasing(idx, 0, |mid|)
    ensures Chain(low, mid, idx, high) in Permutate(low, mid, high)
  {
    var r := Permutate(low, mid, high);
    var subsets := Subsets(|mid|);
    PermutateSelections(low, mid, high);
    SubsetsFacts(|mid|);
    var i :| 0 <= i < |subsets| && subsets[i] == idx;
    assert r[i] == Chain(low, mid, idx, high);
  }

  /** Chains with fewer middle items come first. */
  lemma PermutateGrouped(low: Item, mid: seq<Item>, high: Item)
    ensures forall i, j :: 0 <= i < j < |Permutate(low, mid, high)| ==>
      |Permutate(low, mid, high)[i]| <= |Permutate(low, mid, high)[j]|
  {
    var r := Permutate(low, mid, high);
    var subsets := Subsets(|mid|);
    PermutateSelections(low, mid, high);
    SubsetsFacts(|mid|);
    forall i, j | 0 <= i < j < |r| ensures |r[i]| <= |r[j]| {
      assert |r[i]| == |subsets[i]| + 2 && |r[j]| == |subsets[j]| + 2;
    }
  }

  /** Through pairwise distinct middle items, no chain is produced twice. */
  lemma PermutateDistinct(low: Item, mid: seq<Item>, high: Item)
    requires forall i, j :: 0 <= i < j < |mid| ==> mid[i] != mid[j]
    ensures forall i, j :: 0 <= i < j < |Permutate(low, mid, high)| ==>
      Permutate(low, mid, high)[i] != Permutate(low, mid, high)[j]
  {
    var r := Permutate(low, mid, high);
    var subsets := Subsets(|mid|);
    PermutateSelections(low, mid, high);
    SubsetsFacts(|mid|);
    forall i, j | 0 <= i < j < |r| ensures r[i] != r[j] {
      ChainInjective(low, mid, high, subsets[i], subsets[j]);
    }
  }

  /** Each chain follows the ascending order of its items when the middle items ascend between low and high. */
  lemma ChainAscending(low: Item, mid: seq<Item>, high: Item, idx: seq<nat>)
    requires Ascending(mid) && Increasing(idx, 0, |mid|)
    requires forall j :: 0 <= j < |mid| ==> low.light <= mid[j].light <= high.light
    requires low.light <= high.light
    ensures Ascending(Chain(low, mid, idx, high))
  {
    var c := Chain(low, mid, idx, high);
    forall i, j | 0 <= i < j < |c| ensures c[i].light <= c[j].light {
      if 0 < i && j < |c| - 1 {
        assert c[i] == mid[idx[i - 1]] && c[j] == mid[idx[j - 1]];
      } else if 0 < i {
        assert c[i] == mid[idx[i - 1]];
      } else if j < |c| - 1 {
        assert c[j] == mid[idx[j - 1]];
      }
    }
  }

  /** The non-empty selections of two positions, singletons first. */
  lemma SelectionsOfTwo()
    ensures BySize(2, 1) == [[0], [1], [0, 1]]
  {
    SinglesOfTwo();
    PairsOfTwo();
    assert BySize(2, 3) == [];
    assert BySize(2, 2) == Combos(0, 2, 2);
    assert BySize(2, 1) == Combos(0, 2, 1) + BySize(2, 2);
  }

  lemma SinglesOfTwo()
    ensures Combos(0, 2, 1) == [[0], [1]]
  {
    assert Combos(2, 2, 1) == [] && Combos(2, 2, 0) == [[]];
    assert Prepend(1, [[]]) == [[1]] by {
      assert |Prepend(1, [[]])| == 1 && Prepend(1, [[]])[0] == [1] + [] == [1];
    }
    assert Combos(1, 2, 1) == [[1]];
    assert Prepend(0, [[]]) == [[0]] by {
      assert |Prepend(0, [[]])| == 1 && Prepend(0, [[]])[0] == [0] + [] == [0];
    }
    assert Combos(0, 2, 1) == Prepend(0, Combos(1, 2, 0)) + Combos(1, 2, 1);
  }

  lemma PairsOfTwo()
    ensures Combos(0, 2, 2) == [[0, 1]]
  {
    assert Combos(2, 2, 1) == [] && Combos(2, 2, 0) == [[]] && Combos(2, 2, 2) == [];
    assert Prepend(1, [[]]) == [[1]] by {
      assert |Prepend(1, [[]])| == 1 && Prepend(1, [[]])[0] == [1] + [] == [1];
    }
    assert Combos(1, 2, 1) == [[1]];
    assert Combos(1, 2, 2) == [];
    assert Prepend(0, [[1]]) == [[0, 1]] by {
      assert |Prepend(0, [[1]])| == 1 && Prepend(0, [[1]])[0] == [0] + [1] == [0, 1];
    }
    assert Combos(0, 2, 2) == Prepend(0, Combos(1, 2, 1)) + Combos(1, 2, 2);
  }

  /** Two middle items: the direct chain, each single stop, then both stops in order. */
  lemma PermutateTwo(low: Item, a: Item, b: Item, high: Item)
    ensures Permutate(low, [a, b], high) == [[low, high], [low, a, high], [low, b, high], [low, a, b, high]]
  {
    SelectionsOfTwo();
    ChainsOfTwo(low, a, b, high);
    PermutateUnfold(low, [a, b], high);
  }

  lemma PermutateUnfold(low: Item, mid: seq<Item>, high: Item)
    ensures Permutate(low, mid, high) == [[low, high]] + Chains(low, mid, high, BySize(|mid|, 1))
  {
  }

  lemma ChainsOfTwo(low: Item, a: Item, b: Item, high: Item)
    ensures Chains(low, [a, b], high, [[0], [1], [0, 1]]) == [[low, a, high], [low, b, high], [low, a, b, high]]
  {
    var mid := [a, b];
    ChainThroughOne(low, mid, 0, high);
    ChainThroughOne(low, mid, 1, high);
    ChainThroughTwo(low, mid, 0, 1, high);
  }

  lemma ChainThroughOne(low: Item, mid: seq<Item>, i: nat, high: Item)
    requires i < |mid|
    ensures Chain(low, mid, [i], high) == [low, mid[i], high]
  {
    assert Pick(mid, [i]) == [mid[i]];
  }

  lemma ChainThroughTwo(low: Item, mid: seq<Item>, i: nat, j: nat, high: Item)
    requires i < j < |mid|
    ensures Chain(low, mid, [i, j], high) == [low, mid[i], mid[j], high]
  {
    assert Pick(mid, [i, j]) == [mid[i], mid[j]];
  }

  /** The example beside `Paths.permutate`: low 1, middle 2 and 3, high 5. */
  lemma PermutateExample()
    ensures var one, two, three, five := Item(1, Legendary), Item(2, Legendary), Item(3, Legendary), Item(5, Legendary);
      Permutate(one, [two, three], five) == [[one, five], [one, two, five], [one, three, five], [one, two, three, five]]
  {
    PermutateTwo(Item(1, Legendary), Item(2, Legendary), Item(3, Legendary), Item(5, Legendary));
  }

}
