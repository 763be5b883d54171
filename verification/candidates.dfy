/**
 * Candidates: `Paths.uniquify`, which turns the raw item tokens into the
 * ascending list of items brighter than the base.
 */
module Candidates {
  import opened Results
  import opened Items
  import opened Sorting

  function LightOf(x: Item): int {
    x.light
  }

  /** Sorting by `LightOf` yields an ascending list. */
  lemma SortedByLight(s: seq<Item>)
    requires SortedBy(s, LightOf)
    ensures Ascending(s)
  {
  }

  /**
   * `set(items)`: each distinct token once. Python leaves the order of a set
   * unspecified; this model keeps first occurrences in input order.
   */
  function Dedup(tokens: seq<string>): (r: seq<string>)
    ensures forall t :: t in r <==> t in tokens
    ensures forall i, j :: 0 <= i < j < |r| ==> r[i] != r[j]
    ensures |r| <= |tokens|
    decreases |tokens|
  {
    if |tokens| == 0 then []
    else
      var last := tokens[|tokens| - 1];
      var prefix := Dedup(tokens[..|tokens| - 1]);
      assert tokens == tokens[..|tokens| - 1] + [last];
      if last in prefix then prefix else prefix + [last]
  }

  /**
   * `map(Item, ...)`: parse every token, failing with the error of the
   * first token, in this order, that does not parse.
   */
  function ParseAll(tokens: seq<string>): (r: Result<seq<Item>>)
    ensures r.Ok? <==> forall i :: 0 <= i < |tokens| ==> Parse(tokens[i]).Ok?
    ensures r.Ok? ==> |r.value| == |tokens|
    ensures r.Ok? ==> forall i :: 0 <= i < |tokens| ==> Parse(tokens[i]) == Ok(r.value[i])
    ensures r.Err? ==> exists i :: 0 <= i < |tokens| && Parse(tokens[i]) == Err(r.error)
    decreases |tokens|
  {
    if |tokens| == 0 then Ok([])
    else
      match Parse(tokens[0])
      case Err(e) => Err(e)
      case Ok(x) =>
        match ParseAll(tokens[1..])
        case Err(e) =>
          assert exists i :: 0 <= i < |tokens[1..]| && Parse(tokens[1..][i]) == Err(e);
          Err(e)
        case Ok(xs) =>
          assert forall i :: 1 <= i < |tokens| ==> tokens[i] == tokens[1..][i - 1];
          Ok([x] + xs)
  }

  /** Keep, in order, the items strictly brighter than `base`. */
  function Brighter(base: Item, items: seq<Item>): (r: seq<Item>)
    ensures forall x :: multiset(r)[x] == if x.light > base.light then multiset(items)[x] else 0
    ensures forall i :: 0 <= i < |r| ==> r[i].light > base.light
    ensures |r| <= |items|
    decreases |items|
  {
    if |items| == 0 then []
    else
      var rest := Brighter(base, items[1..]);
      assert items == [items[0]] + items[1..];
      if items[0].light > base.light then [items[0]] + rest else rest
  }

  /** Every item kept by `Brighter` comes from its input. */
  lemma {:induction false} BrighterSubset(base: Item, items: seq<Item>)
    ensures forall x :: x in Brighter(base, items) <==> x in items && x.light > base.light
  {
    forall x ensures x in Brighter(base, items) <==> x in items && x.light > base.light {
      assert x in Brighter(base, items) <==> x in multiset(Brighter(base, items));
      assert x in items <==> x in multiset(items);
    }
  }

  /** Cutting an ascending list keeps it ascending. */
  lemma {:induction false} BrighterSorted(base: Item, items: seq<Item>)
    requires Ascending(items)
    ensures Ascending(Brighter(base, items))
    decreases |items|
  {
    if |items| > 0 && items[0].light > base.light {
      BrighterSorted(base, items[1..]);
      var rest := Brighter(base, items[1..]);
      forall j | 0 <= j < |rest| ensures items[0].light <= rest[j].light {
        BrighterSubset(base, items[1..]);
        assert rest[j] in items[1..];
        var k :| 0 <= k < |items| - 1 && items[1..][k] == rest[j];
        assert items[k + 1] == rest[j];
      }
      AscendingCons(items[0], rest);
    } else if |items| > 0 {
      BrighterSorted(base, items[1..]);
    }
  }

  lemma AscendingCons(x: Item, rest: seq<Item>)
    requires Ascending(rest)
    requires forall j :: 0 <= j < |rest| ==> x.light <= rest[j].light
    ensures Ascending([x] + rest)
  {
    var r := [x] + rest;
    forall i, j | 0 <= i < j < |r| ensures r[i].light <= r[j].light {
      assert r[j] == rest[j - 1];
      if i > 0 {
        assert r[i] == rest[i - 1];
      }
    }
  }

  /** The distinct tokens naming an item brighter than `base`. */
  function BrightTokens(base: Item, tokens: seq<string>): set<string> {
    set t | t in tokens && Parse(t).Ok? && Parse(t).value.light > base.light
  }

  /** Parsing distinct tokens and cutting to the brighter items keeps one item per bright token. */
  lemma {:induction false} BrightCount(base: Item, distinct: seq<string>)
    requires forall i, j :: 0 <= i < j < |distinct| ==> distinct[i] != distinct[j]
    requires ParseAll(distinct).Ok?
    ensures |Brighter(base, ParseAll(distinct).value)| == |BrightTokens(base, distinct)|
    decreases |distinct|
  {
    if |distinct| > 0 {
      var t, rest := distinct[0], distinct[1..];
      forall i, j | 0 <= i < j < |rest| ensures rest[i] != rest[j] {
        assert rest[i] == distinct[i + 1] && rest[j] == distinct[j + 1];
      }
      forall i | 0 <= i < |rest| ensures rest[i] != t {
        assert rest[i] == distinct[i + 1];
      }
      BrightCount(base, rest);
      BrightCountStep(base, distinct);
    }
  }

  lemma BrightCountStep(base: Item, d: seq<string>)
    requires |d| > 0 && d[0] !in d[1..] && ParseAll(d).Ok?
    requires |Brighter(base, ParseAll(d[1..]).value)| == |BrightTokens(base, d[1..])|
    ensures |Brighter(base, ParseAll(d).value)| == |BrightTokens(base, d)|
  {
    var parsed := ParseAll(d).value;
    assert parsed[1..] == ParseAll(d[1..]).value;
    BrighterCons(base, parsed);
    BrightTokensCons(base, d);
    var before := BrightTokens(base, d[1..]);
    assert d[0] !in before;
    if Parse(d[0]).value.light > base.light {
      assert |before + {d[0]}| == |before| + 1;
    }
  }

  lemma BrighterCons(base: Item, items: seq<Item>)
    requires |items| > 0
    ensures |Brighter(base, items)| == |Brighter(base, items[1..])| + if items[0].light > base.light then 1 else 0
  {
  }

  lemma BrightTokensCons(base: Item, d: seq<string>)
    requires |d| > 0 && d[0] !in d[1..] && Parse(d[0]).Ok?
    ensures Parse(d[0]).value.light > base.light ==> BrightTokens(base, d) == BrightTokens(base, d[1..]) + {d[0]}
    ensures Parse(d[0]).value.light <= base.light ==> BrightTokens(base, d) == BrightTokens(base, d[1..])
  {
    assert forall t :: t in d <==> t == d[0] || t in d[1..];
  }

  /** Sorting before the cut changes nothing in how many items survive it. */
  lemma UniqueCount(base: Item, distinct: seq<string>, tokens: seq<string>, parsed: seq<Item>)
    requires forall t :: t in distinct <==> t in tokens
    requires forall i, j :: 0 <= i < j < |distinct| ==> distinct[i] != distinct[j]
    requires ParseAll(distinct) == Ok(parsed)
    ensures |Brighter(base, SortBy(parsed, LightOf))| == |BrightTokens(base, tokens)|
  {
    BrightCount(base, distinct);
    assert BrightTokens(base, distinct) == BrightTokens(base, tokens);
    var sorted := SortBy(parsed, LightOf);
    assert multiset(Brighter(base, sorted)) == multiset(Brighter(base, parsed));
    assert |multiset(Brighter(base, sorted))| == |multiset(Brighter(base, parsed))|;
  }

  /**
   * `Paths.uniquify(base, items)`: the distinct tokens, parsed, sorted by
   * light and cut to those brighter than the base; a DomainError when none
   * is brighter. Any token that does not parse fails the whole call, even
   * one that would have been cut.
   */
  function Uniquify(base: Item, tokens: seq<string>): (r: Result<seq<Item>>)
    ensures r.Ok? <==>
      && (forall t :: t in tokens ==> Parse(t).Ok?)
      && (exists t :: t in tokens && Parse(t).Ok? && Parse(t).value.light > base.light)
    ensures r.Err? ==>
      (r.error == DomainError <==> forall t :: t in tokens ==> Parse(t).Ok? && Parse(t).value.light <= base.light)
    ensures r.Err? && r.error != DomainError ==> exists t :: t in tokens && Parse(t) == Err(r.error)
    ensures r.Ok? ==> |r.value| > 0 && Ascending(r.value)
    ensures r.Ok? ==> forall i :: 0 <= i < |r.value| ==> r.value[i].light > base.light
  {
    var distinct := Dedup(tokens);
    match ParseAll(distinct)
    case Err(e) =>
      ParseAllErrFrom(distinct, tokens);
      Err(e)
    case Ok(parsed) =>
      var unique := Brighter(base, SortBy(parsed, LightOf));
      UniqueMembers(base, distinct, tokens, parsed, unique);
      SortedByLight(SortBy(parsed, LightOf));
      BrighterSorted(base, SortBy(parsed, LightOf));
      if |unique| == 0 then
        Err(DomainError)
      else
        Ok(unique)
  }

  /**
   * The pruned list holds exactly the parsed tokens brighter than the base,
   * one item per distinct such token: an item occurs as often as there are
   * distinct tokens naming it.
   */
  lemma UniquifyMembers(base: Item, tokens: seq<string>)
    requires Uniquify(base, tokens).Ok?
    ensures forall x :: x in Uniquify(base, tokens).value <==>
      exists t :: t in tokens && Parse(t) == Ok(x) && x.light > base.light
    ensures |Uniquify(base, tokens).value| == |BrightTokens(base, tokens)|
    ensures forall x: Item ::
      multiset(Uniquify(base, tokens).value)[x] == if x.light > base.light then |Naming(x, tokens)| else 0
  {
    var distinct := Dedup(tokens);
    var parsed := ParseAll(distinct).value;
    var unique := Brighter(base, SortBy(parsed, LightOf));
    UniqueMembers(base, distinct, tokens, parsed, unique);
    UniqueCount(base, distinct, tokens, parsed);
    forall x: Item ensures multiset(unique)[x] == if x.light > base.light then |Naming(x, tokens)| else 0 {
      UniqueMultiplicity(base, distinct, tokens, parsed, x);
    }
  }

  /** The tokens that parse to `x`. */
  function Naming(x: Item, tokens: seq<string>): set<string> {
    set t | t in tokens && Parse(t) == Ok(x)
  }

  /** Sorting and cutting the parsed distinct tokens keeps each bright item once per token naming it. */
  lemma UniqueMultiplicity(base: Item, distinct: seq<string>, tokens: seq<string>, parsed: seq<Item>, x: Item)
    requires forall t :: t in distinct <==> t in tokens
    requires forall i, j :: 0 <= i < j < |distinct| ==> distinct[i] != distinct[j]
    requires ParseAll(distinct) == Ok(parsed)
    ensures multiset(Brighter(base, SortBy(parsed, LightOf)))[x] ==
      if x.light > base.light then |Naming(x, tokens)| else 0
  {
    ParsedMultiplicity(distinct, x);
    assert Naming(x, distinct) == Naming(x, tokens);
  }

  /** Parsing distinct tokens yields each item once for every token that names it. */
  lemma {:induction false} ParsedMultiplicity(distinct: seq<string>, x: Item)
    requires forall i, j :: 0 <= i < j < |distinct| ==> distinct[i] != distinct[j]
    requires ParseAll(distinct).Ok?
    ensures multiset(ParseAll(distinct).value)[x] == |Naming(x, distinct)|
    decreases |distinct|
  {
    if |distinct| == 0 {
      assert Naming(x, distinct) == {};
    } else {
      var t, rest := distinct[0], distinct[1..];
      forall i, j | 0 <= i < j < |rest| ensures rest[i] != rest[j] {
        assert rest[i] == distinct[i + 1] && rest[j] == distinct[j + 1];
      }
      assert t !in rest by {
        forall i | 0 <= i < |rest| ensures rest[i] != t {
          assert rest[i] == distinct[i + 1];
        }
      }
      ParsedMultiplicity(rest, x);
      var parsed := ParseAll(distinct).value;
      assert parsed == [parsed[0]] + ParseAll(rest).value;
      assert forall u :: u in distinct <==> u == t || u in rest;
      if Parse(t) == Ok(x) {
        assert Naming(x, distinct) == Naming(x, rest) + {t};
      } else {
        assert Naming(x, distinct) == Naming(x, rest);
      }
    }
  }

  /** What the sorted, cut list holds once every token has parsed. */
  lemma UniqueMembers(base: Item, distinct: seq<string>, tokens: seq<string>, parsed: seq<Item>, unique: seq<Item>)
    requires forall t :: t in distinct <==> t in tokens
    requires |distinct| <= |tokens|
    requires ParseAll(distinct) == Ok(parsed)
    requires unique == Brighter(base, SortBy(parsed, LightOf))
    ensures forall t :: t in tokens ==> Parse(t).Ok?
    ensures forall x :: x in unique <==> exists t :: t in tokens && Parse(t) == Ok(x) && x.light > base.light
    ensures |unique| == 0 <==> forall t :: t in tokens ==> Parse(t).value.light <= base.light
    ensures |unique| <= |tokens|
  {
    ParsedMembers(distinct, tokens, parsed);
    var sorted := SortBy(parsed, LightOf);
    BrighterSubset(base, sorted);
    forall x ensures x in sorted <==> x in parsed {
      assert x in sorted <==> x in multiset(sorted);
    }
    forall x ensures x in unique <==> exists t :: t in tokens && Parse(t) == Ok(x) && x.light > base.light {
      assert x in unique <==> x in parsed && x.light > base.light;
    }
    if |unique| == 0 {
      forall t | t in tokens ensures Parse(t).value.light <= base.light {
        assert Parse(t).value in parsed;
      }
    } else {
      assert unique[0] in unique;
    }
  }

  lemma ParseAllErrFrom(distinct: seq<string>, tokens: seq<string>)
    requires forall t :: t in distinct <==> t in tokens
    requires ParseAll(distinct).Err?
    ensures exists t :: t in tokens && Parse(t) == Err(ParseAll(distinct).error)
    ensures exists t :: t in tokens && Parse(t).Err?
    ensures ParseAll(distinct).error != DomainError
  {
    var i :| 0 <= i < |distinct| && Parse(distinct[i]) == Err(ParseAll(distinct).error);
    assert distinct[i] in tokens;
  }

  /** Once every distinct token parses, the parsed list holds exactly the parses of the tokens. */
  lemma ParsedMembers(distinct: seq<string>, tokens: seq<string>, parsed: seq<Item>)
    requires forall t :: t in distinct <==> t in tokens
    requires ParseAll(distinct) == Ok(parsed)
    ensures forall t :: t in tokens ==> Parse(t).Ok?
    ensures forall x :: x in parsed <==> exists t :: t in tokens && Parse(t) == Ok(x)
  {
    forall t | t in tokens ensures Parse(t).Ok? {
      var i :| 0 <= i < |distinct| && distinct[i] == t;
    }
    forall x ensures x in parsed <==> exists t :: t in tokens && Parse(t) == Ok(x) {
      if x in parsed {
        var i :| 0 <= i < |parsed| && parsed[i] == x;
        assert distinct[i] in tokens && Parse(distinct[i]) == Ok(x);
      }
      if exists t :: t in tokens && Parse(t) == Ok(x) {
        var t :| t in tokens && Parse(t) == Ok(x);
        var i :| 0 <= i < |distinct| && distinct[i] == t;
        assert parsed[i] == x;
      }
    }
  }

  /** The pruning example: a base of 200 with candidates 150 and 190 leaves nothing. */
  lemma UniquifyNothingBrighter()
    ensures Uniquify(Item(200, Legendary), ["150", "190"]) == Err(DomainError)
  {
    assert "150"[..2] == "15" && "15"[..1] == "1";
    assert "190"[..2] == "19" && "19"[..1] == "1";
    assert DigitsValue("15") == 15 && DigitsValue("19") == 19;
    assert DigitsValue("150") == 150 && DigitsValue("190") == 190;
    assert Parse("150").Ok? && Parse("150").value.light == 150;
    assert Parse("190").Ok? && Parse("190").value.light == 190;
    var tokens := ["150", "190"];
    assert forall t :: t in tokens ==> Parse(t).Ok? && Parse(t).value.light <= 200;
    var r := Uniquify(Item(200, Legendary), tokens);
    assert r.Err?;
  }
}
