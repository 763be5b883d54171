/**
 * Selection: the single scan in `Paths.__init__` that picks the best-light
 * and the least-cost path.
 */
module Selection {
  import opened Infusion

  /**
   * Path `i` has the greatest light, the least cost among paths of that
   * light, and no earlier path matches it on both.
   */
  predicate IsBestLight(paths: seq<Path>, i: nat) {
    && i < |paths|
    && (forall j :: 0 <= j < |paths| ==> paths[j].light <= paths[i].light)
    && (forall j :: 0 <= j < |paths| && paths[j].light == paths[i].light ==> paths[i].cost <= paths[j].cost)
    && (forall j :: 0 <= j < i ==> paths[j].light != paths[i].light || paths[j].cost != paths[i].cost)
  }

  /**
   * Path `i` has the least cost, the greatest light among paths of that
   * cost, and no earlier path matches it on both.
   */
  predicate IsLeastCost(paths: seq<Path>, i: nat) {
    && i < |paths|
    && (forall j :: 0 <= j < |paths| ==> paths[i].cost <= paths[j].cost)
    && (forall j :: 0 <= j < |paths| && paths[j].cost == paths[i].cost ==> paths[j].light <= paths[i].light)
    && (forall j :: 0 <= j < i ==> paths[j].light != paths[i].light || paths[j].cost != paths[i].cost)
  }

  /**
   * Start both picks at the first path, then replace a pick whenever a path
   * strictly improves its primary key, or ties it and improves the other.
   */
  method Scan(paths: seq<Path>) returns (best: nat, least: nat)
    requires |paths| > 0
    ensures IsBestLight(paths, best)
    ensures IsLeastCost(paths, least)
  {
    best, least := 0, 0;
    var i := 0;
    while i < |paths|
      invariant 0 <= i <= |paths|
      invariant best < |paths| && least < |paths|
      invariant i == 0 ==> best == 0 && least == 0
      invariant i > 0 ==> best < i && least < i
      invariant forall j :: 0 <= j < i ==> paths[j].light <= paths[best].light
      invariant forall j :: 0 <= j < i && paths[j].light == paths[best].light ==> paths[best].cost <= paths[j].cost
      invariant forall j :: 0 <= j < best ==> paths[j].light != paths[best].light || paths[j].cost != paths[best].cost
      invariant forall j :: 0 <= j < i ==> paths[least].cost <= paths[j].cost
      invariant forall j :: 0 <= j < i && paths[j].cost == paths[least].cost ==> paths[j].light <= paths[least].light
      invariant forall j :: 0 <= j < least ==> paths[j].light != paths[least].light || paths[j].cost != paths[least].cost
    {
      var p := paths[i];
      if p.light > paths[best].light || (p.light == paths[best].light && p.cost < paths[best].cost) {
        best := i;
      }
      if p.cost < paths[least].cost || (p.cost == paths[least].cost && p.light > paths[least].light) {
        least := i;
      }
      i := i + 1;
    }
  }

  /** The best-light pick is determined: no two paths satisfy it. */
  lemma BestLightUnique(paths: seq<Path>, a: nat, b: nat)
    requires IsBestLight(paths, a) && IsBestLight(paths, b)
    ensures a == b
  {
    assert paths[a].light == paths[b].light;
    assert paths[a].cost == paths[b].cost;
  }

  /** The least-cost pick is determined: no two paths satisfy it. */
  lemma LeastCostUnique(paths: seq<Path>, a: nat, b: nat)
    requires IsLeastCost(paths, a) && IsLeastCost(paths, b)
    ensures a == b
  {
    assert paths[a].cost == paths[b].cost;
    assert paths[a].light == paths[b].light;
  }

  /** The picks stated over path values rather than positions. */
  lemma PicksOptimal(paths: seq<Path>, best: nat, least: nat)
    requires IsBestLight(paths, best) && IsLeastCost(paths, least)
    ensures forall p :: p in paths ==>
      && p.light <= paths[best].light
      && (p.light == paths[best].light ==> paths[best].cost <= p.cost)
    ensures forall p :: p in paths ==>
      && paths[least].cost <= p.cost
      && (p.cost == paths[least].cost ==> p.light <= paths[least].light)
  {
    forall p | p in paths
      ensures p.light <= paths[best].light && (p.light == paths[best].light ==> paths[best].cost <= p.cost)
      ensures paths[least].cost <= p.cost && (p.cost == paths[least].cost ==> p.light <= paths[least].light)
    {
      var j :| 0 <= j < |paths| && paths[j] == p;
    }
  }

  /** Neither pick is worse than the other on its own primary key. */
  lemma PicksCompared(paths: seq<Path>, best: nat, least: nat)
    requires IsBestLight(paths, best) && IsLeastCost(paths, least)
    ensures paths[least].light <= paths[best].light
    ensures paths[least].cost <= paths[best].cost
    ensures paths[least].light == paths[best].light ==> paths[least].cost == paths[best].cost
  {
  }
}
