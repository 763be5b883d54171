# Infusion path planner — a Dafny model

The `infusion` package plans how to raise the light level of a game item by
feeding ("infusing") brighter items into it. Given a base item token and a list
of candidate tokens, `Paths(base, items)`:

1. parses every token into an `Item`;
2. keeps the distinct candidates brighter than the base, sorted by light
   (`Paths.uniquify`);
3. takes the brightest candidate as the target and enumerates every chain
   `base, <ordered subset of the others>, target` (`Paths.permutate`);
4. walks each chain with `Path.infuse` to get its resulting light and its
   cost in legendary marks (`Path`);
5. sorts the paths by light and scans them once for the best-light path
   (ties broken by lower cost) and the least-cost path (ties broken by
   higher light).

This project models that engine as pure Dafny functions plus three methods,
one for the scan, one for the walk and one for the whole `Paths(base, items)`
call, and proves what each step promises.

| module | file | what it models |
|---|---|---|
| `Results` | `results.dfy` | `Result`/`Option` and the three ways the engine fails |
| `Items` | `items.dfy` | `Quality`, `Item`, the token grammar and its inverse |
| `Infusion` | `infusion.dfy` | `Path.infuse`, half-even rounding, `Path(steps)` as a left fold |
| `Sorting` | `sorting.dfy` | Python's stable `sorted(..., key=...)` |
| `Candidates` | `candidates.dfy` | `Paths.uniquify` |
| `Enumeration` | `enumeration.dfy` | `Paths.permutate` and `itertools.combinations` over positions |
| `Selection` | `selection.dfy` | the best-light / least-cost scan of `Paths.__init__` |
| `PathSets` | `pathsets.dfy` | the part of `Paths.__init__` that runs after pruning |
| `Engine` | `engine.dfy` | `Paths(base, items)` end to end, including its failures |

Behaviour worth knowing:

- `Path.infuse` returns the target item itself, target quality included,
  when the gap is within the close range (line 90). Only the penalty branch
  builds a new item with the base's quality. `Infusion.Infuse` does the same.
  It does not recolour every result to the base's quality.
- `Paths.uniquify` removes duplicates by token text (`set(items)` is a set of
  strings), not by light. `"300"` and `"+300"` both survive as two items of
  light 300. `"300"` given twice survives once.
- Every token is parsed before the cut to brighter items. So a malformed
  token fails the whole call even when its light would have been cut.

## Model

| member | source | states |
|---|---|---|
| `Items.ParseInt` | infusion/__init__.py:33-37 | the integer text accepted by `int()`: a value only for non-empty text; non-positive after a leading `-` and non-negative otherwise; no value once any character is neither a digit nor a sign |
| `Items.ParseIntAccepts` | infusion/__init__.py:33-37 | a text reads as an integer exactly when it is non-empty, every character is an ASCII digit except one optional sign in front, and a digit follows that sign; the digits after the sign are the value's magnitude |
| `Items.ParseIntDigits` | infusion/__init__.py:33-37 | unsigned digits read as their decimal value |
| `Items.ParseIntSigned` | infusion/__init__.py:33-37 | a leading `+` leaves the value unchanged and a leading `-` negates it |
| `Items.ParseIntLeadingZero` | infusion/__init__.py:33-37 | a leading zero, after an optional sign, leaves the value unchanged |
| `Items.ParseFormatInt` | infusion/__init__.py:33-37 | the canonical decimal text of every integer reads back as that integer |
| `Items.TokenParts` | infusion/__init__.py:25-37 | `SigilQuality` makes a token exotic exactly when it starts with `+`, rare exactly when it starts with `-`, and legendary otherwise; `NumericPart` is the token without that one leading sign, and the whole token when there is none |
| `Items.Parse` | infusion/__init__.py:24-41 | built from `SigilQuality` and `NumericPart`: an empty token fails with `EmptyToken`; otherwise parsing succeeds exactly when the numeric part is an integer, and the light is that integer; the item is exotic exactly when the token starts with `+` and rare exactly when it starts with `-`; a failure carries the text handed to `int()` |
| `Items.ParseFormat` | infusion/__init__.py:15-37 | every item except a legendary one with negative light has a token, and that token parses back to the same item |
| `Items.FormatParse` | infusion/__init__.py:24-37 | any item that parses can be named, and its canonical token parses to the same item |
| `Items.ParseSignedExamples` | infusion/__init__.py:25-37 | `+250` is exotic 250, `-180` is rare 180, `--5` is rare -5 |
| `Items.ParseBareExamples` | infusion/__init__.py:29-37 | `300` is legendary 300; `007` is legendary 7 |
| `Items.ParseRejectExamples` | infusion/__init__.py:25-41 | `200x`, `+abc` and `+` fail and carry the text `int()` rejected; the empty token fails |
| `Infusion.RoundHalfEven` | infusion/__init__.py:94 | the result is an integer nearest to tenths/10, and the even one when tenths/10 lies exactly halfway |
| `Infusion.NearestEvenUnique` | infusion/__init__.py:94 | at most one integer meets the half-even rounding condition |
| `Infusion.Threshold` | infusion/__init__.py:80-83 | the close range is between 4 and 7; it is at most 5 exactly when the base is exotic; it is odd exactly when the target is exotic |
| `Infusion.RatioTenths` | infusion/__init__.py:86 | the far-range share is 7 tenths exactly when the base is exotic, and 8 tenths otherwise |
| `Infusion.Infuse` | infusion/__init__.py:57-94 | within the close range the result is the target item; beyond it the result keeps the base's quality, lies strictly between the two lights, and gains the gap times the share, rounded half-even; the result is never brighter than the target, and never darker than the base when the target is at least as bright |
| `Infusion.PenaltyGainBounds` | infusion/__init__.py:86-94 | a gap beyond the close range always gains at least one light and stays short of the target |
| `Infusion.NoTieAtEightTenths` | infusion/__init__.py:86-94 | with the 80% share of a non-exotic base, the exact gain is never halfway between two integers, so only an exotic base can meet a rounding tie |
| `Infusion.TargetQualityDecides` | infusion/__init__.py:80-94 | from a legendary 300, an exotic 307 is within the close range and comes back unchanged, while a legendary 307 is beyond it and yields only 306 |
| `Infusion.InfuseExamples` | infusion/__init__.py:61-74 | the ten cases in `Path.infuse`'s docstring, plus far-range cases for each base quality |
| `Infusion.FoldFrom` | infusion/__init__.py:102 | a fold never ends brighter than its last step; on an ascending chain it never ends below its start, and ends strictly above the start when the chain climbs |
| `Infusion.FoldFromSnoc` | infusion/__init__.py:102 | folding a chain with one more step infuses the previous result with that step, so the fold runs left to right |
| `Infusion.Reduce` | infusion/__init__.py:102 | reducing a single step gives that step; the result is never brighter than the last step |
| `Infusion.ReduceSnoc` | infusion/__init__.py:102 | `reduce(infuse, steps + [x])` is `infuse(reduce(infuse, steps), x)` |
| `Infusion.MakePath` | infusion/__init__.py:96-105 | a path keeps its steps, costs 3 marks per infusion, its item is the left fold of `Path.infuse` over the steps, and its light is its item's light and no brighter than the last step |
| `Infusion.MakePathSnoc` | infusion/__init__.py:96-105 | a one-step path is that item at no cost; adding a step infuses the path's item with it and adds one infusion's cost |
| `Infusion.AscendingPath` | infusion/__init__.py:96-105 | along an ascending chain the path ends no lower than the base, and strictly higher when the chain climbs |
| `Infusion.DirectPath` | infusion/__init__.py:96-105 | a two-step path is a single infusion that costs 3 marks |
| `Infusion.ThreeStepPath` | infusion/__init__.py:96-105 | a three-step path infuses twice, in order, and costs 6 marks |
| `Sorting.Insert` | infusion/__init__.py:126-127 | inserting into a sorted list keeps it sorted and adds exactly the one element |
| `Sorting.SortBy` | infusion/__init__.py:126-127 | the result is sorted by the key and is a permutation of the input |
| `Candidates.SortedByLight` | infusion/__init__.py:152-153 | a list sorted by the light key is ascending in light |
| `Candidates.Dedup` | infusion/__init__.py:152 | each token appears once, and the tokens are exactly the input's tokens |
| `Candidates.ParseAll` | infusion/__init__.py:152 | succeeds exactly when every token parses, item by item; a failure is the error of some token |
| `Candidates.Brighter` | infusion/__init__.py:152-154 | keeps each item brighter than the base as often as it occurs, and drops every other item |
| `Candidates.BrighterSubset` | infusion/__init__.py:152-154 | an item survives the cut exactly when it is in the input and brighter than the base |
| `Candidates.BrighterSorted` | infusion/__init__.py:152-154 | cutting an ascending list leaves it ascending |
| `Candidates.BrightCount` | infusion/__init__.py:152-154 | parsing distinct tokens and cutting keeps one item per distinct bright token |
| `Candidates.Uniquify` | infusion/__init__.py:149-160 | succeeds exactly when every token parses and some token is brighter than the base; fails with `DomainError` exactly when every token parses and none is brighter; any other failure is the error of some token; on success the list is non-empty, ascending and strictly brighter than the base |
| `Candidates.UniquifyMembers` | infusion/__init__.py:149-160 | the pruned list holds exactly the items parsed from tokens brighter than the base, one per distinct such token; each brighter item occurs once for every distinct token that parses to it, and no other item occurs |
| `Candidates.ParsedMultiplicity` | infusion/__init__.py:152 | parsing distinct tokens yields each item once for every token that parses to it |
| `Candidates.UniquifyNothingBrighter` | infusion/__init__.py:156-158 | base 200 with candidates 150 and 190 fails with `DomainError` |
| `Enumeration.SumOfBinoms` | infusion/__init__.py:176-179 | the subsets of every size together number 2^n |
| `Enumeration.Combos` | infusion/__init__.py:179 | there are C(n-lo, k) selections, each of k strictly increasing positions in lo..n-1 |
| `Enumeration.CombosDistinct` | infusion/__init__.py:179 | no selection of positions is produced twice |
| `Enumeration.CombosComplete` | infusion/__init__.py:179 | every strictly increasing selection of k positions is produced |
| `Enumeration.BySize` | infusion/__init__.py:177-179 | the selections of sizes l to n number C(n, l) + ... + C(n, n), and each is strictly increasing with at least l positions |
| `Enumeration.Subsets` | infusion/__init__.py:174-179 | there are 2^n selections of positions, the empty one first |
| `Enumeration.SubsetsFacts` | infusion/__init__.py:176-179 | 2^n selections, the empty one first, each increasing, none repeated, smaller before larger, and every increasing selection among them |
| `Enumeration.Chain` | infusion/__init__.py:181 | a chain starts at low, ends at high, and holds the selected middle items in between, in their original order |
| `Enumeration.Permutate` | infusion/__init__.py:162-183 | 2^n chains, the direct chain `[low, high]` first, each from low to high |
| `Enumeration.PermutateSelections` | infusion/__init__.py:174-181 | the i-th chain passes through the i-th selection of positions |
| `Enumeration.ChainInjective` | infusion/__init__.py:179-181 | with distinct middle items, different selections give different chains |
| `Enumeration.PermutateComplete` | infusion/__init__.py:176-181 | every order-preserving choice of middle items yields one of the chains |
| `Enumeration.PermutateGrouped` | infusion/__init__.py:176-181 | chains with fewer middle items come first |
| `Enumeration.PermutateDistinct` | infusion/__init__.py:176-181 | with distinct middle items, no chain appears twice |
| `Enumeration.ChainAscending` | infusion/__init__.py:176-181 | when the middle items ascend between low and high, every chain ascends |
| `Enumeration.PermutateTwo` | infusion/__init__.py:173-183 | with two middle items the chains are direct, each single stop, then both stops |
| `Enumeration.PermutateExample` | infusion/__init__.py:163-171 | low 1, middle 2 and 3, high 5 gives `1 5`, `1 2 5`, `1 3 5`, `1 2 3 5` |
| `Selection.Scan` | infusion/__init__.py:129-146 | the best-light pick has the highest light, the lowest cost among paths of that light, and comes before any exact tie; the least-cost pick has the lowest cost, the highest light among paths of that cost, and comes before any exact tie |
| `Selection.BestLightUnique` | infusion/__init__.py:133-139 | the best-light conditions single out exactly one position |
| `Selection.LeastCostUnique` | infusion/__init__.py:141-146 | the least-cost conditions single out exactly one position |
| `Selection.PicksOptimal` | infusion/__init__.py:129-146 | no path beats the best-light pick on light, or ties it at lower cost; no path beats the least-cost pick on cost, or ties it with more light |
| `Selection.PicksCompared` | infusion/__init__.py:129-146 | the least-cost pick is never brighter and never dearer than the best-light pick; on equal light the two cost the same |
| `PathSets.MakePaths` | infusion/__init__.py:126 | one path per chain, in chain order, each the path along its chain |
| `PathSets.PathIndex` | infusion/__init__.py:126 | every path in the list is the path along one of the chains |
| `PathSets.ChainPathsBounded` | infusion/__init__.py:118-127 | every walked path runs from the base to the target, costs 3 marks per step, and ends strictly brighter than the base and no brighter than the target |
| `PathSets.AllPathsBounded` | infusion/__init__.py:123-127 | the same bounds hold for every path of any rearrangement of the walked paths |
| `PathSets.Walk` | infusion/__init__.py:118-146 | the target is the brightest candidate and the rest are the others; one path per chain, 2^n of them, sorted by light; every path is bounded as above; both picks are paths, each optimal under its tie-break |
| `Engine.Build` | infusion/__init__.py:111-146 | a base token that does not parse fails with its parse error; failing to prune fails with that error; when both succeed the build succeeds, the base and pruned items are the parsed ones, and the path set is walked as `PathSets.Walk` states |

## Left out

- `infuse.py` is not part of this model. It covers the command line, the
  coloured terminal output and the exit codes.
- `Item.__repr__` and `Item.__str__` only format output, so they are left out.
- `Infusion.Infuse`: the far-range gain is rounded half-even from the exact
  value gap × 7/10 or gap × 8/10. Python computes `round(diff * 0.7)` in binary
  floating point. For a few gaps the product lands just below an exact half,
  and Python then rounds down where the exact value rounds to even. For a gap
  of 45, for example, Python gives 31 and the model gives 32. Floating point is
  not modelled. `diff * perc` (line 94) turns the gap into a float. For gaps
  above 2^53 that product is no longer the exact share, and for gaps too large
  for a float (about 309 digits) Python raises `OverflowError`. `Infuse` is
  total and exact for every integer gap.
- `Items.ParseInt` accepts an optional `+` or `-` followed by ASCII digits.
  `int()` also accepts surrounding whitespace, digit-group underscores and
  non-ASCII decimal digits, and none of these are modelled. It also rejects
  decimal text longer than 4300 digits (Python's default
  `sys.int_max_str_digits`, from 3.11 and the 3.7-3.10 security releases on).
  Such a token then fails at lines 39-41. The model has no length limit, so
  `Items.ParseInt`, `Items.ParseIntAccepts` and `Items.Parse` accept such a
  text where the program fails.
- `Items.Parse`: an empty token makes Python raise `IndexError` at `item[0]`.
  The model returns `Err(EmptyToken)` instead.
- `Items.Parse`: Python's error message quotes only the last word of
  `ValueError`'s text. The model carries the whole text handed to `int()`.
- `Candidates.Uniquify`: Python iterates a `set`, whose order is unspecified.
  The model visits distinct tokens in order of first occurrence. So the
  order of items with equal light, and which malformed token's error is
  reported, may differ from a run of the program. The contract only says the
  error comes from some malformed token. Because the target is the last of the
  brightest items (line 119), the order also decides which of several
  equally bright candidates becomes the target. The target's quality changes
  the close range (line 83) and the quality a close step returns (line 90). So
  path lights and both picks can differ too. Take base `300` with candidates
  `307` and `+307`. With `+307` as the target, the direct path reaches 307 for
  3 marks. With `307` as the target, the direct path reaches only 306, and 307
  costs 6 marks (`Infusion.TargetQualityDecides`). Python randomises string
  hashes per process, so the program can answer differently from run to run.
  `Engine.Build` fixes the first-occurrence order.
- `Enumeration.PermutateDistinct` needs distinct middle items. Like
  `itertools.combinations`, the enumeration works by position, so equal
  middle items can give equal chains.
- Running time is not modelled. The enumeration is exponential in the number
  of candidates.

