/**
 What a failed recipe drags down with it, stated without any worklist: the least set of
 recipes that contains the failed ones and is closed under "a target lost its last
 provider, so whoever needs the target fails".
 */
module FailureCascade {
  import opened Collections

  type Fn = string      // recipe file
  type Name = string    // build or runtime target
  type Tid = string     // "recipe:task"

  datatype TaskEntry = TaskEntry(tdepends: seq<Tid>, idepends: seq<(Name, string)>, irdepends: seq<(Name, string)>)

  /** Who depends on which target. */
  datatype Graph = Graph(depIds: map<Fn, seq<Name>>, rdepIds: map<Fn, seq<Name>>, entries: map<Tid, TaskEntry>)

  /** Providers listed for each build and each runtime target. */
  datatype Listing = Listing(build: map<Name, seq<Fn>>, run: map<Name, seq<Fn>>)

  /** The bookkeeping the cascade changes. */
  datatype Books = Books(listing: Listing, failed: set<Fn>, failedDeps: set<Name>, failedRdeps: set<Name>)

  // ---------- task identifiers ----------

  function TidOf(fn: Fn, task: string): Tid {
    fn + ":" + task
  }

  /** `tid.rsplit(":", 1)[0]`: everything before the last colon, or the whole string. */
  function TidFn(tid: Tid): Fn {
    if ':' !in tid then tid
    else if tid[|tid| - 1] == ':' then tid[..|tid| - 1]
    else TidFn(tid[..|tid| - 1])
  }

  /** Recipe names may hold colons (virtual:, mc:); task names may not. */
  lemma {:induction false} TidFnInverts(fn: Fn, task: string)
    requires ':' !in task
    ensures TidFn(TidOf(fn, task)) == fn
  {
    var tid := TidOf(fn, task);
    assert tid[|fn|] == ':';
    if task == "" {
      assert tid[..|tid| - 1] == fn;
    } else {
      assert tid[|tid| - 1] == task[|task| - 1];
      assert tid[..|tid| - 1] == TidOf(fn, task[..|task| - 1]);
      TidFnInverts(fn, task[..|task| - 1]);
    }
  }

  // ---------- dependees ----------

  /** Build-time and run-time targets are kept in separate namespaces but treated alike. */
  datatype Kind = BuildTime | RunTime

  function Other(k: Kind): Kind {
    if k == BuildTime then RunTime else BuildTime
  }

  predicate Mentions(deps: seq<(Name, string)>, target: Name) {
    exists i :: 0 <= i < |deps| && deps[i].0 == target
  }

  function Ids(g: Graph, k: Kind): map<Fn, seq<Name>> {
    if k == BuildTime then g.depIds else g.rdepIds
  }

  function TaskIds(e: TaskEntry, k: Kind): seq<(Name, string)> {
    if k == BuildTime then e.idepends else e.irdepends
  }

  function Side(l: Listing, k: Kind): map<Name, seq<Fn>> {
    if k == BuildTime then l.build else l.run
  }

  function Lost(b: Books, k: Kind): set<Name> {
    if k == BuildTime then b.failedDeps else b.failedRdeps
  }

  /** Recipes that need the target, as a whole or in one of their tasks. */
  ghost function Dependees(g: Graph, k: Kind, target: Name): set<Fn> {
    (set fn | fn in Ids(g, k) && target in Ids(g, k)[fn])
    + (set tid | tid in g.entries && Mentions(TaskIds(g.entries[tid], k), target) :: TidFn(tid))
  }

  /** Who needs a build target, and who a runtime target, told by the tables themselves. */
  lemma DependeesAre(g: Graph, target: Name, fn: Fn)
    ensures fn in Dependees(g, BuildTime, target) <==>
            || (fn in g.depIds && target in g.depIds[fn])
            || exists tid, s :: tid in g.entries && TidFn(tid) == fn && (target, s) in g.entries[tid].idepends
    ensures fn in Dependees(g, RunTime, target) <==>
            || (fn in g.rdepIds && target in g.rdepIds[fn])
            || exists tid, s :: tid in g.entries && TidFn(tid) == fn && (target, s) in g.entries[tid].irdepends
  {
    hide TidFn;
    forall tid, k | tid in g.entries
      ensures Mentions(TaskIds(g.entries[tid], k), target) <==> exists s :: (target, s) in TaskIds(g.entries[tid], k)
    {
      var deps := TaskIds(g.entries[tid], k);
      if i :| 0 <= i < |deps| && deps[i].0 == target {
        assert (target, deps[i].1) in deps;
      }
      if s :| (target, s) in deps {
        var i :| 0 <= i < |deps| && deps[i] == (target, s);
      }
    }
  }

  /** The part of Dependees found through depids or rdepids. */
  lemma DirectDependees(g: Graph, k: Kind, target: Name, fns: seq<Fn>)
    requires forall fn :: fn in fns <==> fn in Ids(g, k) && target in Ids(g, k)[fn]
    ensures Elems(fns) <= Dependees(g, k, target)
    ensures Dependees(g, k, target) ==
            Elems(fns) + (set tid | tid in g.entries && Mentions(TaskIds(g.entries[tid], k), target) :: TidFn(tid))
  {
  }

  lemma AllDependees(g: Graph, k: Kind, target: Name, fns: seq<Fn>, c: set<Fn>)
    requires forall fn :: fn in Ids(g, k) && target in Ids(g, k)[fn] ==> fn in fns
    requires Elems(fns) <= c
    requires forall tid :: tid in g.entries && Mentions(TaskIds(g.entries[tid], k), target) ==> TidFn(tid) in c
    ensures Dependees(g, k, target) <= c
  {
  }

  lemma TaskDependee(g: Graph, k: Kind, target: Name, tid: Tid, i: nat)
    requires tid in g.entries && i < |TaskIds(g.entries[tid], k)| && TaskIds(g.entries[tid], k)[i].0 == target
    ensures TidFn(tid) in Dependees(g, k, target)
  {
    assert Mentions(TaskIds(g.entries[tid], k), target);
  }

  /** Every recipe that depends on anything. */
  ghost function Recipes(g: Graph): set<Fn> {
    g.depIds.Keys + g.rdepIds.Keys + (set tid | tid in g.entries :: TidFn(tid))
  }

  lemma DependeesAreRecipes(g: Graph, k: Kind, target: Name)
    ensures Dependees(g, k, target) <= Recipes(g)
  {
    assert Ids(g, k).Keys <= Recipes(g);
  }

  // ---------- the least failing set ----------

  /** The target had providers, and all of them are in c. */
  predicate Exhausted(m: map<Name, seq<Fn>>, target: Name, c: set<Fn>) {
    target in m && m[target] != [] && forall p :: p in m[target] ==> p in c
  }

  ghost predicate Closed(g: Graph, l: Listing, c: set<Fn>) {
    forall k, t :: Exhausted(Side(l, k), t, c) ==> Dependees(g, k, t) <= c
  }

  /** Being closed, told by the tables: for build targets and for runtime targets alike. */
  lemma ClosedMeans(g: Graph, l: Listing, c: set<Fn>)
    ensures Closed(g, l, c) <==>
            && (forall t :: t in l.build && l.build[t] != [] && Elems(l.build[t]) <= c ==>
                  Dependees(g, BuildTime, t) <= c)
            && (forall t :: t in l.run && l.run[t] != [] && Elems(l.run[t]) <= c ==> Dependees(g, RunTime, t) <= c)
  {
    hide Dependees;
    forall k, t ensures Exhausted(Side(l, k), t, c) <==>
        t in Side(l, k) && Side(l, k)[t] != [] && Elems(Side(l, k)[t]) <= c {
    }
    assert forall t :: Exhausted(Side(l, BuildTime), t, c) <==>
           t in l.build && l.build[t] != [] && Elems(l.build[t]) <= c;
    assert forall t :: Exhausted(Side(l, RunTime), t, c) <==> t in l.run && l.run[t] != [] && Elems(l.run[t]) <= c;
  }

  /** Recipes that fail in one round once those of c have. */
  ghost function NextFailures(g: Graph, l: Listing, c: set<Fn>): set<Fn> {
    set fn | fn in Recipes(g) && exists k, t :: Exhausted(Side(l, k), t, c) && fn in Dependees(g, k, t)
  }

  /** Rounds until nothing new fails: the simple form of the cascade. */
  ghost function Cascade(g: Graph, l: Listing, c: set<Fn>): set<Fn>
    decreases |Recipes(g) - c|
  {
    var more := NextFailures(g, l, c) - c;
    if more == {} then c
    else
      ShrinksBy(Recipes(g), c, more);
      Cascade(g, l, c + more)
  }

  lemma ShrinksBy<T>(u: set<T>, c: set<T>, more: set<T>)
    requires more <= u && more !! c && more != {}
    ensures |u - (c + more)| < |u - c|
  {
    var x :| x in more;
    assert u - (c + more) < u - c;
    SmallerCard(u - (c + more), u - c);
  }

  lemma CascadeClosed(g: Graph, l: Listing, c: set<Fn>)
    ensures c <= Cascade(g, l, c)
    ensures Closed(g, l, Cascade(g, l, c))
    decreases |Recipes(g) - c|
  {
    var more := NextFailures(g, l, c) - c;
    if more == {} {
      forall k, t | Exhausted(Side(l, k), t, c) ensures Dependees(g, k, t) <= c {
        DependeesAreRecipes(g, k, t);
      }
    } else {
      ShrinksBy(Recipes(g), c, more);
      CascadeClosed(g, l, c + more);
    }
  }

  lemma {:induction false} CascadeLeast(g: Graph, l: Listing, c: set<Fn>, d: set<Fn>)
    requires c <= d && Closed(g, l, d)
    ensures Cascade(g, l, c) <= d
    decreases |Recipes(g) - c|
  {
    var more := NextFailures(g, l, c) - c;
    if more != {} {
      ShrinksBy(Recipes(g), c, more);
      forall fn | fn in more ensures fn in d {
        var k, t :| Exhausted(Side(l, k), t, c) && fn in Dependees(g, k, t);
        assert Exhausted(Side(l, k), t, d);
      }
      CascadeLeast(g, l, c + more, d);
    }
  }

  /** Only one set is both closed over the start and inside every closed set over it. */
  lemma CascadeUnique(g: Graph, l: Listing, c: set<Fn>, d: set<Fn>)
    requires c <= d && Closed(g, l, d)
    requires forall e: set<Fn> {:trigger Closed(g, l, e)} :: c <= e && Closed(g, l, e) ==> d <= e
    ensures d == Cascade(g, l, c)
  {
    CascadeClosed(g, l, c);
    CascadeLeast(g, l, c, d);
  }

  // ---------- what a run of the worklist leaves behind ----------

  function DropAll(m: map<Name, seq<Fn>>, x: set<Fn>): map<Name, seq<Fn>> {
    map t | t in m :: Without(m[t], x)
  }

  /** Targets whose provider list ran empty between m0 and m1. */
  function Emptied(m0: map<Name, seq<Fn>>, m1: map<Name, seq<Fn>>): set<Name> {
    set t | t in m0 && t in m1 && m0[t] != [] && m1[t] == []
  }

  ghost predicate DuplicateFree(m: map<Name, seq<Fn>>) {
    forall t :: t in m ==> NoDup(m[t])
  }

  /** No recipe of x is listed anywhere. */
  ghost predicate Unlisted(m: map<Name, seq<Fn>>, x: set<Fn>) {
    forall t, p :: t in m && p in m[t] ==> p !in x
  }

  /** m1 lists what m0 did, less some recipes of gone. */
  ghost predicate Thinned(m0: map<Name, seq<Fn>>, m1: map<Name, seq<Fn>>, gone: set<Fn>) {
    && m1.Keys == m0.Keys
    && (forall t, p :: t in m1 && p in m1[t] ==> p in m0[t])
    && (forall t, p :: t in m0 && p in m0[t] && p !in m1[t] ==> p in gone)
  }

  /** Holds even when the cascade was cut short by an exception. */
  ghost predicate Grew(b0: Books, b1: Books) {
    b0.failed <= b1.failed && GrewOn(BuildTime, b0, b1) && GrewOn(RunTime, b0, b1)
  }

  ghost predicate GrewOn(k: Kind, b0: Books, b1: Books) {
    && Thinned(Side(b0.listing, k), Side(b1.listing, k), b1.failed - b0.failed)
    && Lost(b0, k) + Emptied(Side(b0.listing, k), Side(b1.listing, k)) <= Lost(b1, k)
  }

  /**
   A finished cascade: exactly the newly failed recipes left the lists, the targets that
   ran empty are exactly the newly failed targets (besides d and r), and every recipe
   needing one of them has failed.
   */
  ghost predicate Settled(g: Graph, b0: Books, b1: Books, d: set<Name>, r: set<Name>) {
    b0.failed <= b1.failed && SettledOn(BuildTime, g, b0, b1, d) && SettledOn(RunTime, g, b0, b1, r)
  }

  ghost predicate SettledOn(k: Kind, g: Graph, b0: Books, b1: Books, extra: set<Name>) {
    var m0, m1 := Side(b0.listing, k), Side(b1.listing, k);
    && m1 == DropAll(m0, b1.failed - b0.failed)
    && Lost(b1, k) == Lost(b0, k) + extra + Emptied(m0, m1)
    && (forall t :: t in extra || t in Emptied(m0, m1) ==> Dependees(g, k, t) <= b1.failed)
  }

  /**
   fn has left the targets in done, every other newly failed recipe has left all of them,
   and every emptied target outside owed has had its dependees failed.
   */
  ghost predicate HalfOn(k: Kind, g: Graph, b0: Books, b: Books, fn: Fn, done: set<Name>, owed: set<Name>) {
    var m0, m := Side(b0.listing, k), Side(b.listing, k);
    && b0.failed + {fn} <= b.failed
    && m == Halfway(m0, b.failed - b0.failed, fn, done)
    && owed <= Emptied(m0, m)
    && Lost(b, k) == Lost(b0, k) + (Emptied(m0, m) - owed)
    && (forall t :: t in Emptied(m0, m) - owed ==> Dependees(g, k, t) <= b.failed)
  }

  function Halfway(m: map<Name, seq<Fn>>, gone: set<Fn>, fn: Fn, done: set<Name>): map<Name, seq<Fn>> {
    map t | t in m :: Without(m[t], if t in done then gone else gone - {fn})
  }

  lemma HalfStart(k: Kind, g: Graph, b0: Books, fn: Fn)
    requires fn !in b0.failed
    ensures HalfOn(k, g, b0, b0.(failed := b0.failed + {fn}), fn, {}, {})
  {
    var b := b0.(failed := b0.failed + {fn});
    forall t | t in Side(b0.listing, k)
      ensures Without(Side(b0.listing, k)[t], b.failed - b0.failed - {fn}) == Side(b0.listing, k)[t]
    {
      WithoutNone(Side(b0.listing, k)[t], b.failed - b0.failed - {fn});
    }
  }

  lemma HalfKeys(k: Kind, g: Graph, b0: Books, b: Books, fn: Fn, done: set<Name>, owed: set<Name>)
    requires HalfOn(k, g, b0, b, fn, done, owed)
    ensures Side(b.listing, k).Keys == Side(b0.listing, k).Keys
  {
  }

  /** fn leaves one more target's list (if it is on it); the target is owed its cascade if that emptied the list. */
  lemma HalfRemove(k: Kind, g: Graph, b0: Books, b: Books, b': Books, fn: Fn, done: set<Name>, t: Name, emptied: bool)
    requires HalfOn(k, g, b0, b, fn, done, {}) && fn !in b0.failed
    requires t in Side(b.listing, k) && DuplicateFree(Side(b.listing, k))
    requires b'.failed == b.failed && Lost(b', k) == Lost(b, k)
    requires Side(b'.listing, k) == Side(b.listing, k)[t := Without(Side(b.listing, k)[t], {fn})]
    requires emptied <==> Side(b.listing, k)[t] != [] && Side(b'.listing, k)[t] == []
    ensures HalfOn(k, g, b0, b', fn, done + {t}, if emptied then {t} else {})
  {
    hide Without, DuplicateFree;
    var m0, m, m' := Side(b0.listing, k), Side(b.listing, k), Side(b'.listing, k);
    HalfwayRemove(m0, b.failed - b0.failed, fn, done, t);
    HalfwayThins(m0, b.failed - b0.failed, fn, done);
    EmptyStaysEmpty(m, {fn});
    assert DropAll(m, {fn})[t] == m'[t];
    EmptiedUpdate(m0, m, t, m'[t]);
  }

  lemma HalfwayRemove(m: map<Name, seq<Fn>>, gone: set<Fn>, fn: Fn, done: set<Name>, t: Name)
    requires t in m && fn in gone
    ensures Halfway(m, gone, fn, done)[t := Without(Halfway(m, gone, fn, done)[t], {fn})] ==
            Halfway(m, gone, fn, done + {t})
  {
    hide Without;
    var x := if t in done then gone else gone - {fn};
    WithoutTwice(m[t], x, {fn});
    assert x + {fn} == gone;
  }

  lemma HalfwayThins(m: map<Name, seq<Fn>>, gone: set<Fn>, fn: Fn, done: set<Name>)
    ensures forall t :: t in m && m[t] == [] ==> Halfway(m, gone, fn, done)[t] == []
  {
  }

  lemma EmptiedUpdate(m0: map<Name, seq<Fn>>, m: map<Name, seq<Fn>>, t: Name, left: seq<Fn>)
    requires m.Keys == m0.Keys && t in m && (m0[t] == [] ==> m[t] == []) && (m[t] == [] ==> left == [])
    ensures Emptied(m0, m[t := left]) == Emptied(m0, m) + if m[t] != [] && left == [] then {t} else {}
  {
  }

  lemma EmptiedTrans(m0: map<Name, seq<Fn>>, m1: map<Name, seq<Fn>>, m2: map<Name, seq<Fn>>)
    requires m2.Keys == m1.Keys == m0.Keys
    requires forall t :: t in m0 && m0[t] == [] ==> m1[t] == []
    requires forall t :: t in m1 && m1[t] == [] ==> m2[t] == []
    ensures Emptied(m0, m2) == Emptied(m0, m1) + Emptied(m1, m2)
  {
  }

  /** A nested cascade from b to b' that settles the target owed. */
  lemma HalfNested(k: Kind, g: Graph, b0: Books, b: Books, b': Books, fn: Fn, done: set<Name>, other: set<Name>,
      target: Name)
    requires HalfOn(k, g, b0, b, fn, done, {target}) && HalfOn(Other(k), g, b0, b, fn, other, {}) && fn !in b0.failed
    requires k == BuildTime ==> Settled(g, b, b', {target}, {})
    requires k == RunTime ==> Settled(g, b, b', {}, {target})
    ensures HalfOn(k, g, b0, b', fn, done, {}) && HalfOn(Other(k), g, b0, b', fn, other, {})
  {
    HalfNestedOn(k, g, b0, b, b', fn, done, {target});
    HalfNestedOn(Other(k), g, b0, b, b', fn, other, {});
  }

  lemma HalfNestedOn(k: Kind, g: Graph, b0: Books, b: Books, b': Books, fn: Fn, done: set<Name>, owed: set<Name>)
    requires HalfOn(k, g, b0, b, fn, done, owed) && fn !in b0.failed
    requires b.failed <= b'.failed && SettledOn(k, g, b, b', owed)
    ensures HalfOn(k, g, b0, b', fn, done, {})
  {
    hide Without;
    var m0, m, m' := Side(b0.listing, k), Side(b.listing, k), Side(b'.listing, k);
    var more := b'.failed - b.failed;
    var gone := b.failed - b0.failed;
    HalfwayDrop(m0, gone, fn, done, more);
    assert gone + more == b'.failed - b0.failed;
    EmptyStaysEmpty(m, more);
    HalfwayThins(m0, gone, fn, done);
    EmptiedTrans(m0, m, m');
  }

  lemma HalfwayDrop(m: map<Name, seq<Fn>>, gone: set<Fn>, fn: Fn, done: set<Name>, more: set<Fn>)
    requires fn in gone && fn !in more
    ensures DropAll(Halfway(m, gone, fn, done), more) == Halfway(m, gone + more, fn, done)
  {
    hide Without;
    forall t | t in m
      ensures Without(Halfway(m, gone, fn, done)[t], more) == Halfway(m, gone + more, fn, done)[t]
    {
      var x := if t in done then gone else gone - {fn};
      WithoutTwice(m[t], x, more);
      assert x + more == if t in done then gone + more else gone + more - {fn};
    }
  }

  lemma EmptyStaysEmpty(m: map<Name, seq<Fn>>, x: set<Fn>)
    ensures forall t :: t in m && m[t] == [] ==> DropAll(m, x)[t] == []
  {
  }

  lemma HalfThins(k: Kind, g: Graph, b0: Books, b: Books, fn: Fn, done: set<Name>, owed: set<Name>)
    requires HalfOn(k, g, b0, b, fn, done, owed)
    ensures Thinned(Side(b0.listing, k), Side(b.listing, k), b.failed - b0.failed)
    ensures forall t, p :: t in owed && p in Side(b0.listing, k)[t] ==> p in b.failed
  {
    var m0, gone := Side(b0.listing, k), b.failed - b0.failed;
    forall t | t in m0
      ensures forall p :: p in Side(b.listing, k)[t] ==> p in m0[t]
      ensures forall p :: p in m0[t] && p !in Side(b.listing, k)[t] ==> p in gone
    {
      WithoutElems(m0[t], if t in done then gone else gone - {fn});
    }
  }

  /** Whatever happened after the halfway point, even an exception, the books only grew. */
  lemma HalfGrew(k: Kind, k': Kind, g: Graph, b0: Books, b: Books, b': Books, fn: Fn, done: set<Name>,
      other: set<Name>, owed: set<Name>)
    requires k' == Other(k) && HalfOn(k, g, b0, b, fn, done, owed) && HalfOn(k', g, b0, b, fn, other, {})
    requires b' == b || Grew(b, b')
    requires owed <= Lost(b', k)
    ensures Grew(b0, b') && b.failed <= b'.failed
  {
    GrewRefl(k, b);
    GrewRefl(k', b);
    HalfGrewOn(k, g, b0, b, b', fn, done, owed);
    HalfGrewOn(k', g, b0, b, b', fn, other, {});
  }

  lemma HalfGrewOn(k: Kind, g: Graph, b0: Books, b: Books, b': Books, fn: Fn, done: set<Name>, owed: set<Name>)
    requires HalfOn(k, g, b0, b, fn, done, owed)
    requires b.failed <= b'.failed && GrewOn(k, b, b') && owed <= Lost(b', k)
    ensures GrewOn(k, b0, b')
  {
    HalfThins(k, g, b0, b, fn, done, owed);
    var m0, m, m' := Side(b0.listing, k), Side(b.listing, k), Side(b'.listing, k);
    forall t, p | t in m0 && p in m0[t] && p !in m'[t] ensures p in b'.failed - b0.failed {
      if p in m[t] {
        assert p in b'.failed - b.failed;
      } else {
        assert p in b.failed - b0.failed;
      }
    }
    forall t | t in Emptied(m0, m') ensures t in Lost(b', k) {
      if m[t] != [] {
        assert t in Emptied(m, m');
      } else {
        assert t in Emptied(m0, m);
      }
    }
  }

  /** Nothing that HalfOn looks at changed. */
  lemma HalfSame(k: Kind, g: Graph, b0: Books, b: Books, b': Books, fn: Fn, done: set<Name>, owed: set<Name>)
    requires HalfOn(k, g, b0, b, fn, done, owed)
    requires Side(b'.listing, k) == Side(b.listing, k) && b'.failed == b.failed && Lost(b', k) == Lost(b, k)
    ensures HalfOn(k, g, b0, b', fn, done, owed)
  {
  }

  lemma HalfExhausted(k: Kind, g: Graph, b0: Books, b: Books, fn: Fn, done: set<Name>, target: Name, most: set<Fn>)
    requires HalfOn(k, g, b0, b, fn, done, {target}) && b.failed <= most
    ensures Exhausted(Side(b0.listing, k), target, most)
  {
    HalfThins(k, g, b0, b, fn, done, {target});
  }

  lemma ThinnedMore(m0: map<Name, seq<Fn>>, m1: map<Name, seq<Fn>>, x: set<Fn>, y: set<Fn>)
    requires Thinned(m0, m1, x) && x <= y
    ensures Thinned(m0, m1, y)
  {
  }

  /** A target emptied halfway through fn's removal: its dependees, and all that follows from them, fail with fn. */
  lemma HalfWithin(k: Kind, g: Graph, b0: Books, b: Books, fn: Fn, done: set<Name>, other: set<Name>, target: Name,
      most: set<Fn>)
    requires HalfOn(k, g, b0, b, fn, done, {target}) && HalfOn(Other(k), g, b0, b, fn, other, {})
    requires b.failed <= most && Closed(g, b0.listing, most)
    ensures Cascade(g, b.listing, b.failed + Dependees(g, k, target)) <= most
  {
    hide Cascade, Dependees, HalfOn, Thinned;
    HalfExhausted(k, g, b0, b, fn, done, target, most);
    HalfThins(k, g, b0, b, fn, done, {target});
    HalfThins(Other(k), g, b0, b, fn, other, {});
    forall j ensures Thinned(Side(b0.listing, j), Side(b.listing, j), most) {
      assert j == k || j == Other(k);
      ThinnedMore(Side(b0.listing, j), Side(b.listing, j), b.failed - b0.failed, most);
    }
    CascadeWithin(g, b0.listing, b.listing, b.failed + Dependees(g, k, target), most);
  }

  lemma GrewRefl(k: Kind, b: Books)
    ensures GrewOn(k, b, b)
  {
  }

  lemma HalfFinish(k: Kind, g: Graph, b0: Books, b: Books, fn: Fn, done: set<Name>)
    requires HalfOn(k, g, b0, b, fn, done, {}) && Side(b0.listing, k).Keys <= done
    ensures SettledOn(k, g, b0, b, {})
  {
    assert Side(b.listing, k) == DropAll(Side(b0.listing, k), b.failed - b0.failed);
  }

  /** Cascades compose. */
  lemma SettledTrans(k: Kind, g: Graph, b0: Books, b1: Books, b2: Books, x: set<Name>, y: set<Name>)
    requires b0.failed <= b1.failed <= b2.failed
    requires SettledOn(k, g, b0, b1, x) && SettledOn(k, g, b1, b2, y)
    ensures SettledOn(k, g, b0, b2, x + y)
  {
    var m0, m1, m2 := Side(b0.listing, k), Side(b1.listing, k), Side(b2.listing, k);
    DropTwice(m0, b1.failed - b0.failed, b2.failed - b1.failed);
    assert (b1.failed - b0.failed) + (b2.failed - b1.failed) == b2.failed - b0.failed;
    EmptyStaysEmpty(m0, b1.failed - b0.failed);
    EmptyStaysEmpty(m1, b2.failed - b1.failed);
    EmptiedTrans(m0, m1, m2);
  }

  lemma SettledRefl(k: Kind, g: Graph, b: Books)
    ensures SettledOn(k, g, b, b, {})
  {
    DropNothing(Side(b.listing, k));
    assert b.failed - b.failed == {};
  }

  lemma SettledGrew(k: Kind, g: Graph, b0: Books, b1: Books, extra: set<Name>)
    requires SettledOn(k, g, b0, b1, extra)
    ensures GrewOn(k, b0, b1)
    ensures DuplicateFree(Side(b0.listing, k)) ==> DuplicateFree(Side(b1.listing, k))
  {
    DropThins(Side(b0.listing, k), b1.failed - b0.failed);
  }

  lemma SettledBoth(g: Graph, b0: Books, b1: Books)
    requires b0.failed <= b1.failed
    requires SettledOn(BuildTime, g, b0, b1, {}) && SettledOn(RunTime, g, b0, b1, {})
    ensures Settled(g, b0, b1, {}, {}) && Grew(b0, b1)
  {
    SettledGrew(BuildTime, g, b0, b1, {});
    SettledGrew(RunTime, g, b0, b1, {});
  }

  lemma GrewTrans(k: Kind, b0: Books, b1: Books, b2: Books)
    requires b0.failed <= b1.failed <= b2.failed
    requires GrewOn(k, b0, b1) && GrewOn(k, b1, b2)
    ensures GrewOn(k, b0, b2)
  {
    var m0, m1, m2 := Side(b0.listing, k), Side(b1.listing, k), Side(b2.listing, k);
    forall t, p | t in m0 && p in m0[t] && p !in m2[t] ensures p in b2.failed - b0.failed {
      if p in m1[t] {
        assert p in b2.failed - b1.failed;
      } else {
        assert p in b1.failed - b0.failed;
      }
    }
    forall t | t in Emptied(m0, m2) ensures t in Lost(b2, k) {
      if m1[t] != [] {
        assert t in Emptied(m1, m2);
      } else {
        assert t in Emptied(m0, m1);
      }
    }
  }

  /** A set closed over the lists stays closed after some of its own recipes leave them. */
  lemma ClosedAfterThinning(g: Graph, l0: Listing, l1: Listing, c: set<Fn>)
    requires Closed(g, l0, c)
    requires forall k :: Thinned(Side(l0, k), Side(l1, k), c)
    ensures Closed(g, l1, c)
  {
    forall k, t | Exhausted(Side(l1, k), t, c) ensures Dependees(g, k, t) <= c {
      assert Side(l1, k)[t][0] in Side(l1, k)[t];
      assert Exhausted(Side(l0, k), t, c);
    }
  }

  /** A cascade started later, over thinner lists, stays inside any closed set that holds its start. */
  lemma CascadeWithin(g: Graph, l0: Listing, l1: Listing, start: set<Fn>, c: set<Fn>)
    requires Closed(g, l0, c) && start <= c
    requires forall k :: Thinned(Side(l0, k), Side(l1, k), c)
    ensures Cascade(g, l1, start) <= c
  {
    ClosedAfterThinning(g, l0, l1, c);
    CascadeLeast(g, l1, start, c);
  }

  /** If nothing failed was listed before, a finished cascade is closed over the lists it started from. */
  lemma SettledClosed(g: Graph, b0: Books, b1: Books, d: set<Name>, r: set<Name>)
    requires Settled(g, b0, b1, d, r)
    requires forall k :: Unlisted(Side(b0.listing, k), b0.failed)
    ensures Closed(g, b0.listing, b1.failed)
    ensures forall k :: Unlisted(Side(b1.listing, k), b1.failed)
  {
    forall k
      ensures forall t :: Exhausted(Side(b0.listing, k), t, b1.failed) ==> Dependees(g, k, t) <= b1.failed
      ensures Unlisted(Side(b1.listing, k), b1.failed)
    {
      SettledHalf(Side(b0.listing, k), b0.failed, b1.failed);
      assert SettledOn(k, g, b0, b1, if k == BuildTime then d else r);
    }
  }

  /** A finished and bounded cascade is exactly the least failing set over the lists it started from. */
  lemma SettledIsCascade(g: Graph, b0: Books, b1: Books, d: set<Name>, r: set<Name>, start: set<Fn>)
    requires Settled(g, b0, b1, d, r)
    requires forall k :: Unlisted(Side(b0.listing, k), b0.failed)
    requires b0.failed <= start <= b1.failed <= Cascade(g, b0.listing, start)
    ensures b1.failed == Cascade(g, b0.listing, start)
  {
    SettledClosed(g, b0, b1, d, r);
    CascadeLeast(g, b0.listing, start, b1.failed);
  }

  lemma SettledHalf(m: map<Name, seq<Fn>>, f0: set<Fn>, f1: set<Fn>)
    requires f0 <= f1 && Unlisted(m, f0)
    ensures forall t :: Exhausted(m, t, f1) ==> t in Emptied(m, DropAll(m, f1 - f0))
    ensures Unlisted(DropAll(m, f1 - f0), f1)
  {
    forall t | t in m
      ensures forall p :: p in Without(m[t], f1 - f0) ==> p in m[t] && p !in f1
      ensures (forall p :: p in m[t] ==> p in f1 - f0) ==> Without(m[t], f1 - f0) == []
    {
      WithoutElems(m[t], f1 - f0);
    }
  }

  lemma DropTwice(m: map<Name, seq<Fn>>, x: set<Fn>, y: set<Fn>)
    ensures DropAll(DropAll(m, x), y) == DropAll(m, x + y)
  {
    forall t | t in m ensures Without(Without(m[t], x), y) == Without(m[t], x + y) {
      WithoutTwice(m[t], x, y);
    }
  }

  lemma DropNothing(m: map<Name, seq<Fn>>)
    ensures DropAll(m, {}) == m
  {
    forall t | t in m ensures Without(m[t], {}) == m[t] {
      WithoutNone(m[t], {});
    }
  }

  lemma DropThins(m: map<Name, seq<Fn>>, x: set<Fn>)
    ensures Thinned(m, DropAll(m, x), x)
    ensures DuplicateFree(m) ==> DuplicateFree(DropAll(m, x))
  {
    forall t | t in m
      ensures forall p :: p in Without(m[t], x) <==> p in m[t] && p !in x
      ensures NoDup(m[t]) ==> NoDup(Without(m[t], x))
    {
      WithoutElems(m[t], x);
    }
  }

  // ---------- failing the dependees of one target, one after the other ----------

  ghost predicate Along(g: Graph, b1: Books, b: Books, most: set<Fn>) {
    Settled(g, b1, b, {}, {}) && b.failed <= most && Closed(g, b1.listing, most)
  }

  lemma AlongStart(g: Graph, b1: Books, most: set<Fn>)
    requires b1.failed <= most && Closed(g, b1.listing, most)
    ensures Along(g, b1, b1, most)
    ensures Grew(b1, b1)
  {
    SettledRefl(BuildTime, g, b1);
    SettledRefl(RunTime, g, b1);
  }

  /** The bound survives the next recipe's failure, and the books grow, whether or not it was fatal. */
  lemma AlongGrew(g: Graph, b1: Books, b: Books, b': Books, fn: Fn, most: set<Fn>)
    requires Along(g, b1, b, most) && fn in most
    requires Grew(b, b') && b'.failed <= Cascade(g, b.listing, b.failed + {fn})
    ensures b'.failed <= most && Grew(b1, b')
  {
    hide Cascade, SettledOn, Closed, Thinned;
    SettledGrew(BuildTime, g, b1, b, {});
    SettledGrew(RunTime, g, b1, b, {});
    forall k ensures Thinned(Side(b1.listing, k), Side(b.listing, k), most) {
      assert GrewOn(k, b1, b);
      ThinnedMore(Side(b1.listing, k), Side(b.listing, k), b.failed - b1.failed, most);
    }
    assert b.failed + {fn} <= most;
    CascadeWithin(g, b1.listing, b.listing, b.failed + {fn}, most);
    GrewTrans(BuildTime, b1, b, b');
    GrewTrans(RunTime, b1, b, b');
  }

  lemma AlongGrows(g: Graph, b1: Books, b: Books, most: set<Fn>)
    requires Along(g, b1, b, most)
    ensures Grew(b1, b) && b.failed <= most
  {
    SettledGrew(BuildTime, g, b1, b, {});
    SettledGrew(RunTime, g, b1, b, {});
  }

  lemma AlongStep(g: Graph, b1: Books, b: Books, b': Books, fn: Fn, most: set<Fn>)
    requires Along(g, b1, b, most) && fn in most
    requires Grew(b, b') && b'.failed <= Cascade(g, b.listing, b.failed + {fn})
    requires Settled(g, b, b', {}, {})
    ensures Along(g, b1, b', most)
  {
    AlongGrew(g, b1, b, b', fn, most);
    var none: set<Name> := {};
    assert none + none == none;
    SettledTrans(BuildTime, g, b1, b, b', none, none);
    SettledTrans(RunTime, g, b1, b, b', none, none);
  }

  /** b1 is b0 with the target already marked as lost. */
  lemma GrewFrom(k: Kind, b0: Books, b1: Books, b: Books, target: Name)
    requires b1.listing == b0.listing && b1.failed == b0.failed
    requires Lost(b1, k) == Lost(b0, k) + {target} && Lost(b1, Other(k)) == Lost(b0, Other(k))
    requires b == b1 || Grew(b1, b)
    ensures Grew(b0, b) && target in Lost(b, k)
  {
  }

  /** Once every dependee has failed, the loss of the target is settled. */
  lemma AlongEnd(g: Graph, k: Kind, b0: Books, b1: Books, b: Books, target: Name, most: set<Fn>)
    requires Along(g, b1, b, most) && Dependees(g, k, target) <= b.failed
    requires b1.listing == b0.listing && b1.failed == b0.failed
    requires Lost(b1, k) == Lost(b0, k) + {target} && Lost(b1, Other(k)) == Lost(b0, Other(k))
    ensures k == BuildTime ==> Settled(g, b0, b, {target}, {})
    ensures k == RunTime ==> Settled(g, b0, b, {}, {target})
    ensures Grew(b0, b) && b.failed <= most
  {
    SettledGrew(k, g, b0, b, {target});
    SettledGrew(Other(k), g, b0, b, {});
  }
}
