/**
 * Engine: `Paths(base, items)`, which parses the base token, prunes the
 * candidate tokens and walks the paths through what remains.
 */
module Engine {
  import opened Results
  import opened Items
  import opened Candidates
  import opened PathSets

  /**
   * `Paths(base, items)`: fails when the base token does not parse, or when
   * pruning the candidate tokens fails; otherwise it succeeds and holds the
   * walked paths.
   */
  method Build(baseToken: string, tokens: seq<string>) returns (r: Result<PathSet>)
    ensures Parse(baseToken).Err? ==> r == Err(Parse(baseToken).error)
    ensures Parse(baseToken).Ok? && Uniquify(Parse(baseToken).value, tokens).Err? ==>
      r == Err(Uniquify(Parse(baseToken).value, tokens).error)
    ensures Parse(baseToken).Ok? && Uniquify(Parse(baseToken).value, tokens).Ok? ==> r.Ok?
    ensures r.Ok? ==>
      && Parse(baseToken) == Ok(r.value.base)
      && Uniquify(r.value.base, tokens) == Ok(r.value.items)
      && Walked(r.value)
  {
    var base :- Parse(baseToken);
    var items :- Uniquify(base, tokens);
    var ps := Walk(base, items);
    return Ok(ps);
  }
}
