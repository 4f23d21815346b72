/** Priorities of layers: given ones are kept, missing ones follow from the layers depended on. */
module LayerPriority {
  import opened Collections

  type Layer = string

  // ---------- the smallest given priority ----------

  /** The running minimum, for which 0 also means that nothing has been seen. */
  function MinPrio(given: seq<int>): int {
    if given == [] then 0
    else
      var m := MinPrio(given[..|given| - 1]);
      var prio := given[|given| - 1];
      if m == 0 || prio < m then prio else m
  }

  function Minimum(s: seq<int>): int
    requires s != []
  {
    if |s| == 1 then s[0]
    else
      var m := Minimum(s[..|s| - 1]);
      if s[|s| - 1] < m then s[|s| - 1] else m
  }

  lemma {:induction false} MinimumIs(s: seq<int>)
    requires s != []
    ensures Minimum(s) in s && forall x :: x in s ==> Minimum(s) <= x
  {
    if |s| > 1 {
      var t := s[..|s| - 1];
      MinimumIs(t);
      assert s == t + [s[|s| - 1]];
    }
  }

  /** The running minimum is the minimum, unless that is 0 and something comes after the last 0. */
  lemma {:induction false} MinPrioIsMinimum(given: seq<int>)
    requires given != []
    ensures MinPrio(given) == Minimum(given) <==> Minimum(given) != 0 || given[|given| - 1] == 0
    ensures MinPrio(given) in given && (MinPrio(given) == 0 ==> given[|given| - 1] == 0)
    ensures MinPrio(given) >= Minimum(given)
  {
    var t := given[..|given| - 1];
    var x := given[|given| - 1];
    assert given == t + [x];
    if t == [] {
      assert MinPrio(t) == 0;
    } else {
      MinPrioIsMinimum(t);
    }
  }

  /** A given 0 hides what came before it: the layers are then taken to start at 7, not at 0. */
  lemma ZeroResets()
    ensures MinPrio([5, 0, 7]) == 7 && Minimum([5, 0, 7]) == 0
  {
    assert [5, 0, 7][..2] == [5, 0] && [5, 0][..1] == [5];
    assert MinPrio([5]) == 5 by { assert [5][..0] == []; }
    assert MinPrio([5, 0]) == 0;
    assert Minimum([5, 0]) == 0;
  }

  method SmallestGiven(priorities: seq<Option<int>>) returns (min: int)
    ensures min == MinPrio(Given(priorities))
  {
    min := 0;
    for i := 0 to |priorities|
      invariant min == MinPrio(Given(priorities[..i]))
    {
      assert priorities[..i + 1][..i] == priorities[..i];
      match priorities[i]
      case None =>
      case Some(prio) =>
        assert (Given(priorities[..i]) + [prio])[..|Given(priorities[..i])|] == Given(priorities[..i]);
        if min == 0 || prio < min {
          min := prio;
        }
    }
    assert priorities[..|priorities|] == priorities;
  }

  function Given(priorities: seq<Option<int>>): seq<int> {
    if priorities == [] then []
    else
      var rest := Given(priorities[..|priorities| - 1]);
      match priorities[|priorities| - 1]
      case None => rest
      case Some(p) => rest + [p]
  }

  /** The priorities that were given, zeros too, in their order. */
  lemma {:induction false} GivenAre(a: seq<Option<int>>, b: seq<Option<int>>, x: int)
    ensures Given(a + b) == Given(a) + Given(b)
    ensures Given([None]) == [] && Given([Some(x)]) == [x]
  {
    var none: seq<Option<int>>, one: seq<Option<int>> := [None], [Some(x)];
    assert none[..0] == [] && one[..0] == [];
    if b == [] {
      assert a + b == a;
    } else {
      var n := |b| - 1;
      assert (a + b)[..|a + b| - 1] == a + b[..n];
      GivenAre(a, b[..n], x);
    }
  }

  // ---------- computed priorities ----------

  datatype Layers = Layers(depends: map<Layer, seq<Layer>>, given: map<Layer, Option<int>>, minPrio: int)

  /** Only a given priority other than 0 counts as given. */
  predicate Explicit(ls: Layers, l: Layer)
    requires l in ls.given
  {
    ls.given[l].Some? && ls.given[l].value != 0
  }

  /** l has no priority of its own, and takes that of d into account. */
  ghost predicate LooksAt(ls: Layers, l: Layer, d: Layer)
    requires ls.given.Keys == ls.depends.Keys
  {
    l in ls.depends && !Explicit(ls, l) && d in ls.depends[l]
  }

  ghost predicate Path(ls: Layers, p: seq<Layer>)
    requires ls.given.Keys == ls.depends.Keys
  {
    forall i :: 0 <= i < |p| - 1 ==> LooksAt(ls, p[i], p[i + 1])
  }

  ghost predicate Reaches(ls: Layers, l: Layer, d: Layer)
    requires ls.given.Keys == ls.depends.Keys
  {
    exists p :: Path(ls, p) && |p| > 1 && p[0] == l && p[|p| - 1] == d
  }

  /**
   Layers that others look at are enabled, and none leads back to itself. What layers with a
   priority of their own depend on is not looked at.
   */
  ghost predicate Sound(ls: Layers) {
    && ls.given.Keys == ls.depends.Keys
    && (forall l, d :: LooksAt(ls, l, d) ==> d in ls.depends)
    && (forall l :: l in ls.depends ==> !Reaches(ls, l, l))
  }

  /** The same, told by numbers: whatever a layer looks at is lower in rank. */
  ghost predicate Ranked(ls: Layers, rank: Layer -> nat) {
    && ls.given.Keys == ls.depends.Keys
    && forall l, d :: LooksAt(ls, l, d) ==> d in ls.depends && rank(d) < rank(l)
  }

  ghost function Below(ls: Layers, l: Layer): set<Layer>
    requires ls.given.Keys == ls.depends.Keys
  {
    set d | d in ls.depends && Reaches(ls, l, d)
  }

  lemma LooksBelow(ls: Layers, l: Layer, d: Layer)
    requires Sound(ls) && LooksAt(ls, l, d)
    ensures |Below(ls, d)| < |Below(ls, l)|
  {
    assert Path(ls, [l, d]) && [l, d][0] == l && [l, d][1] == d;
    assert Reaches(ls, l, d);
    forall m | m in Below(ls, d) ensures m in Below(ls, l) {
      var p :| Path(ls, p) && |p| > 1 && p[0] == d && p[|p| - 1] == m;
      var q := [l] + p;
      assert forall i :: 0 <= i < |q| - 1 ==> LooksAt(ls, q[i], q[i + 1]);
      assert Path(ls, q) && q[0] == l && q[|q| - 1] == m;
    }
    assert d in Below(ls, l) && d !in Below(ls, d);
    SmallerCard(Below(ls, d), Below(ls, l));
  }

  lemma {:induction false} RankFalls(ls: Layers, rank: Layer -> nat, p: seq<Layer>)
    requires Ranked(ls, rank) && Path(ls, p) && |p| > 1
    ensures rank(p[|p| - 1]) < rank(p[0])
  {
    assert LooksAt(ls, p[0], p[0 + 1]);
    if |p| > 2 {
      forall i | 0 <= i < |p[1..]| - 1 ensures LooksAt(ls, p[1..][i], p[1..][i + 1]) {
        assert LooksAt(ls, p[i + 1], p[i + 1 + 1]);
      }
      RankFalls(ls, rank, p[1..]);
    }
  }

  /** There is a rank exactly if no layer leads back to itself. */
  lemma RankedExactly(ls: Layers)
    ensures Sound(ls) <==> exists rank :: Ranked(ls, rank)
  {
    if Sound(ls) {
      var rank := l => |Below(ls, l)|;
      forall l, d | LooksAt(ls, l, d) ensures rank(d) < rank(l) {
        LooksBelow(ls, l, d);
      }
      assert Ranked(ls, rank);
    } else if exists rank :: Ranked(ls, rank) {
      var rank :| Ranked(ls, rank);
      var l :| l in ls.depends && Reaches(ls, l, l);
      var p :| Path(ls, p) && |p| > 1 && p[0] == l && p[|p| - 1] == l;
      RankFalls(ls, rank, p);
      assert false;
    }
  }

  /** The priority a layer ends up with. */
  ghost function Final(ls: Layers, rank: Layer -> nat, l: Layer): int
    requires Ranked(ls, rank) && l in ls.depends
    decreases rank(l), |ls.depends[l]| + 1
  {
    if Explicit(ls, l) then ls.given[l].value
    else 1 + Highest(ls, rank, l, |ls.depends[l]|)
  }

  /** The highest of the base priority and those of the first n dependencies. */
  ghost function Highest(ls: Layers, rank: Layer -> nat, l: Layer, n: nat): int
    requires Ranked(ls, rank) && l in ls.depends && !Explicit(ls, l) && n <= |ls.depends[l]|
    decreases rank(l), n
  {
    if n == 0 then ls.minPrio
    else
      var h := Highest(ls, rank, l, n - 1);
      var d := ls.depends[l][n - 1];
      assert LooksAt(ls, l, d);
      if Final(ls, rank, d) > h then Final(ls, rank, d) else h
  }

  lemma {:induction false} HighestBounds(ls: Layers, rank: Layer -> nat, l: Layer, n: nat)
    requires Ranked(ls, rank) && l in ls.depends && !Explicit(ls, l) && n <= |ls.depends[l]|
    ensures Highest(ls, rank, l, n) >= ls.minPrio
    ensures forall i :: 0 <= i < n ==>
            ls.depends[l][i] in ls.depends && Final(ls, rank, ls.depends[l][i]) <= Highest(ls, rank, l, n)
    ensures Highest(ls, rank, l, n) == ls.minPrio ||
            exists i :: 0 <= i < n && ls.depends[l][i] in ls.depends &&
                Final(ls, rank, ls.depends[l][i]) == Highest(ls, rank, l, n)
  {
    if n > 0 {
      HighestBounds(ls, rank, l, n - 1);
      assert LooksAt(ls, l, ls.depends[l][n - 1]);
    }
  }

  /**
   What the computed priorities mean: a layer without a given one comes strictly above the
   base and above each layer it depends on, and no higher than that requires.
   */
  lemma AboveDependencies(ls: Layers, rank: Layer -> nat, l: Layer)
    requires Ranked(ls, rank) && l in ls.depends && !Explicit(ls, l)
    ensures Final(ls, rank, l) > ls.minPrio
    ensures forall d :: LooksAt(ls, l, d) ==> Final(ls, rank, l) > Final(ls, rank, d)
    ensures Final(ls, rank, l) == ls.minPrio + 1 ||
            exists d :: LooksAt(ls, l, d) && Final(ls, rank, l) == Final(ls, rank, d) + 1
  {
    var n := |ls.depends[l]|;
    HighestBounds(ls, rank, l, n);
    forall d | LooksAt(ls, l, d) ensures Final(ls, rank, l) > Final(ls, rank, d) {
      var i :| 0 <= i < n && ls.depends[l][i] == d;
    }
    if Highest(ls, rank, l, n) != ls.minPrio {
      var i :| 0 <= i < n && ls.depends[l][i] in ls.depends &&
          Final(ls, rank, ls.depends[l][i]) == Highest(ls, rank, l, n);
      assert LooksAt(ls, l, ls.depends[l][i]);
    }
  }

  /** The choice of rank does not matter. */
  lemma {:induction false} FinalIsUnique(ls: Layers, rank: Layer -> nat, rank': Layer -> nat, l: Layer)
    requires Ranked(ls, rank) && Ranked(ls, rank') && l in ls.depends
    ensures Final(ls, rank, l) == Final(ls, rank', l)
    decreases rank(l), |ls.depends[l]| + 1
  {
    if !Explicit(ls, l) {
      HighestIsUnique(ls, rank, rank', l, |ls.depends[l]|);
    }
  }

  lemma {:induction false} HighestIsUnique(ls: Layers, rank: Layer -> nat, rank': Layer -> nat, l: Layer, n: nat)
    requires Ranked(ls, rank) && Ranked(ls, rank') && l in ls.depends && !Explicit(ls, l) && n <= |ls.depends[l]|
    ensures Highest(ls, rank, l, n) == Highest(ls, rank', l, n)
    decreases rank(l), n
  {
    if n > 0 {
      var d := ls.depends[l][n - 1];
      assert LooksAt(ls, l, d);
      HighestIsUnique(ls, rank, rank', l, n - 1);
      FinalIsUnique(ls, rank, rank', d);
    }
  }

  lemma RankedAt(ls: Layers, rank: Layer -> nat, l: Layer)
    requires Ranked(ls, rank) && l in ls.depends
    ensures ls.given.Keys == ls.depends.Keys
    ensures Explicit(ls, l) ==> Final(ls, rank, l) == ls.given[l].value
    ensures !Explicit(ls, l) ==> Final(ls, rank, l) == 1 + Highest(ls, rank, l, |ls.depends[l]|)
    ensures !Explicit(ls, l) ==> forall d :: d in ls.depends[l] ==> d in ls.depends && rank(d) < rank(l)
  {
    assert forall d :: d in ls.depends[l] && !Explicit(ls, l) ==> LooksAt(ls, l, d);
  }

  lemma HighestNone(ls: Layers, rank: Layer -> nat, l: Layer)
    requires Ranked(ls, rank) && l in ls.depends && !Explicit(ls, l)
    ensures Highest(ls, rank, l, 0) == ls.minPrio
  {
  }

  lemma HighestStep(ls: Layers, rank: Layer -> nat, l: Layer, i: nat)
    requires Ranked(ls, rank) && l in ls.depends && !Explicit(ls, l) && i < |ls.depends[l]|
    ensures ls.depends[l][i] in ls.depends
    ensures var h, f := Highest(ls, rank, l, i), Final(ls, rank, ls.depends[l][i]);
            Highest(ls, rank, l, i + 1) == if f > h then f else h
  {
    assert LooksAt(ls, l, ls.depends[l][i]);
  }

  class LayerTable {
    const ls: Layers
    var priorities: map<Layer, Option<int>>

    constructor (ls: Layers)
      ensures this.ls == ls && priorities == ls.given
    {
      this.ls := ls;
      priorities := ls.given;
    }

    /** Each entry is the given one still, or the final one already. */
    ghost predicate Memo(rank: Layer -> nat)
      requires Ranked(ls, rank)
      reads this
    {
      && priorities.Keys == ls.given.Keys
      && forall l :: l in priorities ==> priorities[l] == ls.given[l] || priorities[l] == Some(Final(ls, rank, l))
    }

    method CalcLayerPriority(l: Layer, ghost rank: Layer -> nat)
      requires Ranked(ls, rank) && l in ls.depends && Memo(rank)
      modifies this`priorities
      ensures Memo(rank) && priorities[l] == Some(Final(ls, rank, l))
      ensures forall d :: d in priorities && old(priorities)[d] == Some(Final(ls, rank, d)) ==>
              priorities[d] == old(priorities)[d]
      decreases rank(l)
    {
      hide Ranked, Final, Highest;
      RankedAt(ls, rank, l);
      if priorities[l].None? || priorities[l].value == 0 {
        HighestNone(ls, rank, l);
        var maxDepprio := ls.minPrio;
        var deps := ls.depends[l];
        for i := 0 to |deps|
          invariant Memo(rank) && maxDepprio == Highest(ls, rank, l, i)
          invariant forall d :: d in priorities && old(priorities)[d] == Some(Final(ls, rank, d)) ==>
                    priorities[d] == old(priorities)[d]
        {
          assert deps[i] in deps;
          CalcLayerPriority(deps[i], rank);
          HighestStep(ls, rank, l, i);
          var depprio := priorities[deps[i]].value;
          if depprio > maxDepprio {
            maxDepprio := depprio;
          }
        }
        maxDepprio := maxDepprio + 1;
        priorities := priorities[l := Some(maxDepprio)];
      }
    }

    /**
     The list of layers in any order, each with its final priority; a layer without a usable file
     pattern is left out.
     */
    method ConfigPriorities(order: seq<Layer>, usable: Layer -> bool, ghost rank: Layer -> nat)
        returns (r: seq<(Layer, int)>)
      requires Ranked(ls, rank) && Memo(rank)
      requires forall l :: l in order ==> l in ls.depends
      modifies this`priorities
      ensures Memo(rank)
      ensures forall l :: l in order ==> priorities[l] == Some(Final(ls, rank, l))
      ensures forall l, p :: (l, p) in r <==> l in order && usable(l) && p == Final(ls, rank, l)
    {
      r := [];
      for i := 0 to |order|
        invariant Memo(rank)
        invariant forall j :: 0 <= j < i ==> priorities[order[j]] == Some(Final(ls, rank, order[j]))
        invariant forall l, p :: (l, p) in r <==>
                  l in order[..i] && usable(l) && l in ls.depends && p == Final(ls, rank, l)
      {
        var c := order[i];
        assert order[..i + 1] == order[..i] + [c];
        CalcLayerPriority(c, rank);
        if usable(c) {
          r := r + [(c, priorities[c].value)];
        }
      }
      assert order[..|order|] == order;
    }
  }

  // ---------- from the given priorities to the final ones ----------

  /** What a layer has to end up with. */
  ghost predicate Right(ls: Layers, final: map<Layer, int>, l: Layer)
    requires ls.given.Keys == ls.depends.Keys == final.Keys && l in ls.given
  {
    if ls.given[l].Some? && ls.given[l].value != 0 then final[l] == ls.given[l].value
    else
      && final[l] > ls.minPrio
      && (forall d :: d in ls.depends[l] ==> d in final && final[l] > final[d])
      && (final[l] == ls.minPrio + 1 || exists d :: d in ls.depends[l] && d in final && final[l] == final[d] + 1)
  }

  function Settings(list: seq<Layer>, given: map<Layer, Option<int>>): seq<Option<int>>
    requires forall l :: l in list ==> l in given
  {
    seq(|list|, i requires 0 <= i < |list| => given[list[i]])
  }

  lemma {:induction false} GivenMembers(ps: seq<Option<int>>, x: int)
    ensures x in Given(ps) <==> Some(x) in ps
  {
    if ps != [] {
      GivenMembers(ps[..|ps| - 1], x);
      assert ps == ps[..|ps| - 1] + [ps[|ps| - 1]];
    }
  }

  /** The base the missing priorities build on: 0 if none was given, and the smallest given one if none of them is 0. */
  lemma BaseIsSmallest(list: seq<Layer>, given: map<Layer, Option<int>>)
    requires forall l :: l in list ==> l in given && given[l] != Some(0)
    ensures var base := MinPrio(Given(Settings(list, given)));
            && (forall l, p :: l in list && given[l] == Some(p) ==> base <= p)
            && if forall l :: l in list ==> given[l].None? then base == 0
               else exists l :: l in list && given[l] == Some(base)
  {
    var ps := Settings(list, given);
    forall x ensures x in Given(ps) <==> exists l :: l in list && given[l] == Some(x) {
      GivenMembers(ps, x);
      if l :| l in list && given[l] == Some(x) {
        var i :| 0 <= i < |list| && list[i] == l;
        assert ps[i] == Some(x);
      }
    }
    forall l | l in list && given[l].Some? ensures Given(ps) != [] {
      assert given[l] == Some(given[l].value);
      assert given[l].value in Given(ps);
    }
    if Given(ps) != [] {
      MinPrioIsMinimum(Given(ps));
      MinimumIs(Given(ps));
      assert MinPrio(Given(ps)) in Given(ps) && Minimum(Given(ps)) in Given(ps);
    }
  }

  /**
   `handleCollections`: the layers in the order of the setting. A layer keeps the priority it was
   given; any other comes above the smallest given one, as far as that was found, and above all it
   depends on, by no more than it must.
   */
  method HandleCollections(list: seq<Layer>, given: map<Layer, Option<int>>, depends: map<Layer, seq<Layer>>,
      usable: Layer -> bool)
    returns (r: seq<(Layer, int)>, final: map<Layer, int>)
    requires (forall l :: l in list <==> l in given) && Sound(Layers(depends, given, 0))
    ensures final.Keys == given.Keys
    ensures forall l, p :: (l, p) in r <==> l in given && usable(l) && p == final[l]
    ensures forall l :: l in given ==> Right(Layers(depends, given, MinPrio(Given(Settings(list, given)))), final, l)
  {
    var min := SmallestGiven(Settings(list, given));
    var ls := Layers(depends, given, min);
    SoundForAny(Layers(depends, given, 0), ls);
    RankedExactly(ls);
    ghost var rank :| Ranked(ls, rank);
    var table := new LayerTable(ls);
    r := table.ConfigPriorities(list, usable, rank);
    final := map l | l in given :: table.priorities[l].value;
    forall l | l in given ensures Right(ls, final, l) {
      FinalIsRight(ls, rank, final, l);
    }
  }

  /** The base priority has nothing to do with which layers look at which. */
  lemma SoundForAny(a: Layers, b: Layers)
    requires Sound(a) && a.depends == b.depends && a.given == b.given
    ensures Sound(b)
  {
    assert forall l, d :: LooksAt(a, l, d) <==> LooksAt(b, l, d);
    forall p | Path(b, p) ensures Path(a, p) {
      forall i | 0 <= i < |p| - 1 ensures LooksAt(a, p[i], p[i + 1]) {
        assert LooksAt(b, p[i], p[i + 1]);
      }
    }
    assert forall l, d :: Reaches(b, l, d) ==> Reaches(a, l, d);
  }

  lemma FinalIsRight(ls: Layers, rank: Layer -> nat, final: map<Layer, int>, l: Layer)
    requires Ranked(ls, rank) && final.Keys == ls.given.Keys && l in ls.given &&
             forall m :: m in final ==> final[m] == Final(ls, rank, m)
    ensures Right(ls, final, l)
  {
    if !Explicit(ls, l) {
      AboveDependencies(ls, rank, l);
      forall d | d in ls.depends[l] ensures d in final && final[l] > final[d] {
        assert LooksAt(ls, l, d);
      }
    }
  }
}
