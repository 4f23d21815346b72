/** The provider bookkeeping of one configuration: which recipe provides what, and what has failed. */
module TaskDataModel {
  import opened Collections
  import opened FailureCascade
  import opened ProviderResolution
  import opened ResolutionLimits

  /** How taking in a provider ended: normally, or with the exception the source raises. */
  datatype Outcome = Resolved | NoProvider(target: Name) | NoRProvider(target: Name) | MultipleRProvider(target: Name)

  class TaskData {
    const halt: bool
    const allowIncomplete: bool
    var buildTargets: map<Name, seq<Fn>>
    var runTargets: map<Name, seq<Fn>>
    var externalTargets: seq<Name>
    var seenFns: seq<Fn>
    var taskEntries: map<Tid, TaskEntry>
    var depIds: map<Fn, seq<Name>>
    var rdepIds: map<Fn, seq<Name>>
    var failedDeps: seq<Name>
    var failedRdeps: seq<Name>
    var failedFns: seq<Fn>

    constructor (halt: bool, allowIncomplete: bool)
      ensures this.halt == halt && this.allowIncomplete == allowIncomplete
      ensures Now() == Books(Listing(map[], map[]), {}, {}, {})
      ensures Needs() == Graph(map[], map[], map[])
      ensures externalTargets == [] && seenFns == [] && failedFns == []
    {
      this.halt, this.allowIncomplete := halt, allowIncomplete;
      buildTargets, runTargets := map[], map[];
      externalTargets, seenFns, taskEntries := [], [], map[];
      depIds, rdepIds := map[], map[];
      failedDeps, failedRdeps, failedFns := [], [], [];
    }

    ghost function Needs(): Graph
      reads this`depIds, this`rdepIds, this`taskEntries
    {
      Graph(depIds, rdepIds, taskEntries)
    }

    ghost function Now(): Books
      reads this`buildTargets, this`runTargets, this`failedFns, this`failedDeps, this`failedRdeps
    {
      Books(Listing(buildTargets, runTargets), Elems(failedFns), Elems(failedDeps), Elems(failedRdeps))
    }

    ghost predicate NoDuplicates()
      reads this`buildTargets, this`runTargets, this`failedFns
    {
      DuplicateFree(buildTargets) && DuplicateFree(runTargets) && NoDup(failedFns)
    }

    ghost predicate NoFailedListed()
      reads this`buildTargets, this`runTargets, this`failedFns, this`failedDeps, this`failedRdeps
    {
      forall k :: Unlisted(Side(Now().listing, k), Now().failed)
    }

    /** With halt, no target that was requested from outside has failed since. */
    twostate predicate Spared()
      reads this`failedDeps, this`externalTargets
    {
      halt ==> forall t :: t in externalTargets && t in failedDeps ==> t in old(failedDeps)
    }

    /** Recipes listing the build target among their dependencies. */
    method GetDependees(item: Name) returns (dependees: seq<Fn>)
      ensures forall fn :: fn in dependees <==> fn in depIds && item in depIds[fn]
    {
      dependees := [];
      var order := Enumerate(depIds.Keys);
      for i := 0 to |order|
        invariant forall fn :: fn in dependees <==> fn in order[..i] && item in depIds[fn]
      {
        if item in depIds[order[i]] {
          dependees := dependees + [order[i]];
        }
      }
      assert order[..|order|] == order;
    }

    method GetRdependees(item: Name) returns (dependees: seq<Fn>)
      ensures forall fn :: fn in dependees <==> fn in rdepIds && item in rdepIds[fn]
    {
      dependees := [];
      var order := Enumerate(rdepIds.Keys);
      for i := 0 to |order|
        invariant forall fn :: fn in dependees <==> fn in order[..i] && item in rdepIds[fn]
      {
        if item in rdepIds[order[i]] {
          dependees := dependees + [order[i]];
        }
      }
      assert order[..|order|] == order;
    }

    /** `remove` on one provider list, if the recipe is on it. */
    method Unlist(k: Kind, target: Name, fn: Fn) returns (emptied: bool)
      requires NoDuplicates() && target in Side(Now().listing, k)
      modifies this`buildTargets, this`runTargets
      ensures NoDuplicates()
      ensures Side(Now().listing, k) ==
              old(Side(Now().listing, k))[target := Without(old(Side(Now().listing, k))[target], {fn})]
      ensures Side(Now().listing, Other(k)) == old(Side(Now().listing, Other(k)))
      ensures emptied <==> old(Side(Now().listing, k))[target] != [] && Side(Now().listing, k)[target] == []
    {
      var listed := if k == BuildTime then buildTargets[target] else runTargets[target];
      WithoutElems(listed, {fn});
      if fn !in listed {
        WithoutNone(listed, {fn});
        assert Side(Now().listing, k) == Side(Now().listing, k)[target := listed];
        return false;
      }
      RemoveFirstIsWithout(listed, fn);
      listed := RemoveFirst(listed, fn);
      if k == BuildTime {
        buildTargets := buildTargets[target := listed];
      } else {
        runTargets := runTargets[target := listed];
      }
      return listed == [];
    }

    /**
     Mark a recipe as unbuildable, with everything that cannot be built without it. The
     result is the target whose loss was fatal (only with halt), if any.
     */
    method FailFn(fn: Fn) returns (fatal: Option<Name>)
      requires NoDuplicates()
      modifies this`buildTargets, this`runTargets, this`failedFns, this`failedDeps, this`failedRdeps
      ensures NoDuplicates()
      ensures Grew(old(Now()), Now())
      ensures fn in failedFns
      ensures fatal.None? ==> Settled(Needs(), old(Now()), Now(), {}, {})
      ensures Elems(failedFns) <= Cascade(Needs(), old(Now()).listing, old(Now()).failed + {fn})
      ensures fatal.None? && old(NoFailedListed()) ==>
                NoFailedListed() && Elems(failedFns) == Cascade(Needs(), old(Now()).listing, old(Now()).failed + {fn})
      ensures fatal.Some? ==> halt && fatal.value in externalTargets && fatal.value in failedDeps
      ensures fatal.None? ==> Spared()
      decreases |Recipes(Needs()) + {fn} - Elems(failedFns)|, 0
    {
      hide SettledOn, Settled, HalfOn, Grew, GrewOn, Thinned, Cascade, Recipes, DuplicateFree, NoDup, Closed, Elems;
      ghost var b0 := Now();
      ghost var g := Needs();
      ghost var most := Cascade(g, b0.listing, b0.failed + {fn});
      CascadeClosed(g, b0.listing, b0.failed + {fn});
      fatal := None;
      InElems(failedFns, fn);
      if fn in failedFns {
        SettledRefl(BuildTime, g, b0);
        SettledRefl(RunTime, g, b0);
        SettledBoth(g, b0, b0);
        Exactly(b0, {}, {}, {fn});
        return;
      }
      NoDupPush(failedFns, fn);
      failedFns := failedFns + [fn];
      ElemsPush(old(failedFns), fn);
      HalfStart(BuildTime, g, b0, fn);
      HalfStart(RunTime, g, b0, fn);
      assert Now() == b0.(failed := b0.failed + {fn});
      MeasureDrops(fn, b0);
      fatal := ForgetAll(BuildTime, fn, b0, {});
      InElems(failedFns, fn);
      if fatal.Some? {
        return;
      }
      MeasureDrops(fn, b0);
      fatal := ForgetAll(RunTime, fn, b0, b0.listing.build.Keys);
      InElems(failedFns, fn);
      if fatal.Some? {
        return;
      }
      AllForgotten(fn, b0);
    }

    /** Once fn has left every list, the cascade is finished. */
    lemma AllForgotten(fn: Fn, b0: Books)
      requires fn !in b0.failed && b0.failed + {fn} <= Now().failed <= Cascade(Needs(), b0.listing, b0.failed + {fn})
      requires HalfOn(BuildTime, Needs(), b0, Now(), fn, b0.listing.build.Keys, {})
      requires HalfOn(RunTime, Needs(), b0, Now(), fn, b0.listing.run.Keys, {})
      ensures Settled(Needs(), b0, Now(), {}, {}) && Grew(b0, Now())
      ensures (forall k :: Unlisted(Side(b0.listing, k), b0.failed)) ==>
                NoFailedListed() && Now().failed == Cascade(Needs(), b0.listing, b0.failed + {fn})
    {
      hide SettledOn, Settled, HalfOn, Grew, GrewOn, Cascade;
      HalfFinish(BuildTime, Needs(), b0, Now(), fn, b0.listing.build.Keys);
      HalfFinish(RunTime, Needs(), b0, Now(), fn, b0.listing.run.Keys);
      SettledBoth(Needs(), b0, Now());
      Exactly(b0, {}, {}, {fn});
    }

    /** With no failed recipe listed beforehand, the bound on a finished cascade is attained. */
    lemma Exactly(b0: Books, d: set<Name>, r: set<Name>, hit: set<Fn>)
      requires Settled(Needs(), b0, Now(), d, r)
      requires b0.failed + hit <= Now().failed <= Cascade(Needs(), b0.listing, b0.failed + hit)
      ensures (forall k :: Unlisted(Side(b0.listing, k), b0.failed)) ==>
                NoFailedListed() && Now().failed == Cascade(Needs(), b0.listing, b0.failed + hit)
    {
      if forall k :: Unlisted(Side(b0.listing, k), b0.failed) {
        SettledClosed(Needs(), b0, Now(), d, r);
        SettledIsCascade(Needs(), b0, Now(), d, r, b0.failed + hit);
      }
    }

    lemma MeasureDrops(fn: Fn, b0: Books)
      requires fn !in b0.failed && b0.failed + {fn} <= Elems(failedFns)
      ensures |Recipes(Needs()) - Elems(failedFns)| < |Recipes(Needs()) + {fn} - b0.failed|
    {
      var a, b := Recipes(Needs()) - Elems(failedFns), Recipes(Needs()) + {fn} - b0.failed;
      assert fn in b && fn !in a;
      SmallerCard(a, b);
    }

    /** The two loops of FailFn, one for each kind of target: fn leaves every list of that kind. */
    method ForgetAll(k: Kind, fn: Fn, ghost b0: Books, ghost other: set<Name>) returns (fatal: Option<Name>)
      requires NoDuplicates() && fn !in b0.failed
      requires HalfOn(k, Needs(), b0, Now(), fn, {}, {})
      requires HalfOn(Other(k), Needs(), b0, Now(), fn, other, {})
      requires b0.failed + {fn} <= Now().failed <= Cascade(Needs(), b0.listing, b0.failed + {fn})
      modifies this`buildTargets, this`runTargets, this`failedFns, this`failedDeps, this`failedRdeps
      ensures NoDuplicates()
      ensures fatal.None? ==> HalfOn(k, Needs(), b0, Now(), fn, Side(b0.listing, k).Keys, {})
      ensures fatal.None? ==> HalfOn(Other(k), Needs(), b0, Now(), fn, other, {})
      ensures fatal.Some? ==> Grew(b0, Now())
      ensures b0.failed + {fn} <= Now().failed <= Cascade(Needs(), b0.listing, b0.failed + {fn})
      ensures fatal.Some? ==> halt && fatal.value in externalTargets && fatal.value in failedDeps
      ensures fatal.None? ==> Spared()
      decreases |Recipes(Needs()) - Elems(failedFns)|, 3
    {
      hide SettledOn, HalfOn, Grew, GrewOn, Thinned, Cascade, Recipes, DuplicateFree, NoDup, Closed;
      ghost var g := Needs();
      ghost var was := Now();
      HalfKeys(k, g, b0, Now(), fn, {}, {});
      var order := Enumerate(if k == BuildTime then buildTargets.Keys else runTargets.Keys);
      assert Elems(order[..0]) == {};
      fatal := None;
      for i := 0 to |order|
        invariant NoDuplicates() && fatal.None? && Spared()
        invariant HalfOn(k, g, b0, Now(), fn, Elems(order[..i]), {})
        invariant HalfOn(Other(k), g, b0, Now(), fn, other, {})
        invariant was.failed <= Now().failed <= Cascade(g, b0.listing, b0.failed + {fn})
      {
        CardMonotone(Recipes(g) - Elems(failedFns), Recipes(g) - was.failed);
        fatal := Forget(k, order[i], fn, b0, Elems(order[..i]), other);
        assert Elems(order[..i + 1]) == Elems(order[..i]) + {order[i]};
        if fatal.Some? {
          return;
        }
      }
      assert order[..|order|] == order;
    }

    /**
     One turn of the loops above: fn leaves one target's list, and if that was its last
     provider the target is removed.
     */
    method Forget(k: Kind, target: Name, fn: Fn, ghost b0: Books, ghost done: set<Name>, ghost other: set<Name>)
      returns (fatal: Option<Name>)
      requires NoDuplicates() && fn !in b0.failed
      requires target in Side(b0.listing, k)
      requires HalfOn(k, Needs(), b0, Now(), fn, done, {})
      requires HalfOn(Other(k), Needs(), b0, Now(), fn, other, {})
      requires Now().failed <= Cascade(Needs(), b0.listing, b0.failed + {fn})
      modifies this`buildTargets, this`runTargets, this`failedFns, this`failedDeps, this`failedRdeps
      ensures NoDuplicates() && Now().failed >= old(Now()).failed
      ensures fatal.None? ==> HalfOn(k, Needs(), b0, Now(), fn, done + {target}, {})
      ensures fatal.None? ==> HalfOn(Other(k), Needs(), b0, Now(), fn, other, {})
      ensures Grew(b0, Now())
      ensures Now().failed <= Cascade(Needs(), b0.listing, b0.failed + {fn})
      ensures fatal.Some? ==> halt && fatal.value in externalTargets && fatal.value in failedDeps
      ensures fatal.None? ==> Spared()
      decreases |Recipes(Needs()) - Elems(failedFns)|, 2
    {
      hide SettledOn, Settled, HalfOn, Grew, GrewOn, Thinned, Cascade, Dependees, Recipes, Closed, DuplicateFree,
          NoDup, Without;
      ghost var g := Needs();
      ghost var b := Now();
      ghost var most := Cascade(g, b0.listing, b0.failed + {fn});
      HalfKeys(k, g, b0, b, fn, done, {});
      CascadeClosed(g, b0.listing, b0.failed + {fn});
      var emptied := Unlist(k, target, fn);
      ghost var b' := Now();
      HalfRemove(k, g, b0, b, b', fn, done, target, emptied);
      HalfSame(Other(k), g, b0, b, b', fn, other, {});
      if !emptied {
        HalfGrew(k, Other(k), g, b0, b', b', fn, done + {target}, other, {});
        return None;
      }
      HalfWithin(k, g, b0, b', fn, done + {target}, other, target, most);
      if k == BuildTime {
        fatal := RemoveBuildTarget(target);
      } else {
        fatal := RemoveRunTarget(target);
      }
      HalfGrew(k, Other(k), g, b0, b', Now(), fn, done + {target}, other, {target});
      if fatal.None? {
        HalfNested(k, g, b0, b', Now(), fn, done + {target}, other, target);
      }
    }

    /** Mark a build target as unbuildable, with the recipes that need it. */
    method RemoveBuildTarget(target: Name) returns (fatal: Option<Name>)
      requires NoDuplicates()
      modifies this`buildTargets, this`runTargets, this`failedFns, this`failedDeps, this`failedRdeps
      ensures NoDuplicates()
      ensures Grew(old(Now()), Now())
      ensures target in failedDeps
      ensures fatal.None? ==> Settled(Needs(), old(Now()), Now(), {target}, {})
      ensures Elems(failedFns) <= Cascade(Needs(), old(Now()).listing, old(Now()).failed +
              Dependees(Needs(), BuildTime, target))
      ensures fatal.Some? ==> halt && fatal.value in externalTargets && fatal.value in failedDeps
      ensures fatal.None? ==> Spared()
      decreases |Recipes(Needs()) - Elems(failedFns)|, 1, 3
    {
      hide SettledOn, Settled, Grew, GrewOn, Thinned, Cascade, Recipes, Closed, Along, DuplicateFree, NoDup, Dependees;
      ghost var b0 := Now();
      ghost var g := Needs();
      ghost var hit := Dependees(g, BuildTime, target);
      ghost var most := Cascade(g, b0.listing, b0.failed + hit);
      CascadeClosed(g, b0.listing, b0.failed + hit);
      failedDeps := failedDeps + [target];
      assert Elems(failedDeps) == Lost(b0, BuildTime) + {target};
      ghost var b1 := Now();
      AlongStart(g, b1, most);
      var dependees := GetDependees(target);
      DirectDependees(g, BuildTime, target, dependees);
      fatal := FailEach(BuildTime, target, dependees, b1, most);
      GrewFrom(BuildTime, b0, b1, Now(), target);
      if fatal.Some? {
        return;
      }
      CardMonotone(Recipes(g) - Elems(failedFns), Recipes(g) - b0.failed);
      fatal := FailTasks(BuildTime, target, b1, most);
      GrewFrom(BuildTime, b0, b1, Now(), target);
      if fatal.Some? {
        return;
      }
      AllDependees(g, BuildTime, target, dependees, Now().failed);
      AlongEnd(g, BuildTime, b0, b1, Now(), target, most);
      if halt && target in externalTargets {
        fatal := Some(target);
      }
    }

    /** Mark a run-time target as unbuildable, with the recipes that need it. */
    method RemoveRunTarget(target: Name) returns (fatal: Option<Name>)
      requires NoDuplicates()
      modifies this`buildTargets, this`runTargets, this`failedFns, this`failedDeps, this`failedRdeps
      ensures NoDuplicates()
      ensures Grew(old(Now()), Now())
      ensures target in failedRdeps
      ensures fatal.None? ==> Settled(Needs(), old(Now()), Now(), {}, {target})
      ensures Elems(failedFns) <= Cascade(Needs(), old(Now()).listing, old(Now()).failed +
              Dependees(Needs(), RunTime, target))
      ensures fatal.Some? ==> halt && fatal.value in externalTargets && fatal.value in failedDeps
      ensures fatal.None? ==> Spared()
      decreases |Recipes(Needs()) - Elems(failedFns)|, 1, 3
    {
      hide SettledOn, Settled, Grew, GrewOn, Thinned, Cascade, Recipes, Closed, Along, DuplicateFree, NoDup, Dependees;
      ghost var b0 := Now();
      ghost var g := Needs();
      ghost var hit := Dependees(g, RunTime, target);
      ghost var most := Cascade(g, b0.listing, b0.failed + hit);
      CascadeClosed(g, b0.listing, b0.failed + hit);
      failedRdeps := failedRdeps + [target];
      assert Elems(failedRdeps) == Lost(b0, RunTime) + {target};
      ghost var b1 := Now();
      AlongStart(g, b1, most);
      var dependees := GetRdependees(target);
      DirectDependees(g, RunTime, target, dependees);
      fatal := FailEach(RunTime, target, dependees, b1, most);
      GrewFrom(RunTime, b0, b1, Now(), target);
      if fatal.Some? {
        return;
      }
      CardMonotone(Recipes(g) - Elems(failedFns), Recipes(g) - b0.failed);
      fatal := FailTasks(RunTime, target, b1, most);
      GrewFrom(RunTime, b0, b1, Now(), target);
      if fatal.Some? {
        return;
      }
      AllDependees(g, RunTime, target, dependees, Now().failed);
      AlongEnd(g, RunTime, b0, b1, Now(), target, most);
    }

    /**
     The recipes listing a removed target fail, one after the other. The books b1 are those from
     which the loss started.
     */
    method FailEach(ghost k: Kind, ghost target: Name, fns: seq<Fn>, ghost b1: Books, ghost most: set<Fn>)
      returns (fatal: Option<Name>)
      requires NoDuplicates()
      requires Elems(fns) <= Dependees(Needs(), k, target) <= most
      requires Along(Needs(), b1, Now(), most)
      modifies this`buildTargets, this`runTargets, this`failedFns, this`failedDeps, this`failedRdeps
      ensures NoDuplicates()
      ensures old(Now()).failed <= Now().failed <= most
      ensures Grew(b1, Now())
      ensures fatal.None? ==> Along(Needs(), b1, Now(), most) && Elems(fns) <= Now().failed
      ensures fatal.Some? ==> halt && fatal.value in externalTargets && fatal.value in failedDeps
      ensures fatal.None? ==> Spared()
      decreases |Recipes(Needs()) - Elems(failedFns)|, 1, 2
    {
      hide SettledOn, Settled, Grew, GrewOn, Thinned, Cascade, Recipes, Closed, Along, DuplicateFree, NoDup, Dependees;
      ghost var g := Needs();
      ghost var b := Now();
      AlongGrows(g, b1, b, most);
      fatal := None;
      for i := 0 to |fns|
        invariant NoDuplicates() && Along(g, b1, Now(), most) && Grew(b1, Now()) && fatal.None? && Spared()
        invariant b.failed <= Now().failed <= most
        invariant Elems(fns[..i]) <= Now().failed
      {
        CardMonotone(Recipes(g) - Elems(failedFns), Recipes(g) - b.failed);
        fatal := FailDependee(k, target, fns[i], b1, most);
        assert Elems(fns[..i + 1]) == Elems(fns[..i]) + {fns[i]};
        if fatal.Some? {
          return;
        }
      }
      assert fns[..|fns|] == fns;
    }

    /** The recipes of the tasks that name a removed target fail. */
    method FailTasks(k: Kind, target: Name, ghost b1: Books, ghost most: set<Fn>) returns (fatal: Option<Name>)
      requires NoDuplicates()
      requires Dependees(Needs(), k, target) <= most
      requires Along(Needs(), b1, Now(), most)
      modifies this`buildTargets, this`runTargets, this`failedFns, this`failedDeps, this`failedRdeps
      ensures NoDuplicates()
      ensures old(Now()).failed <= Now().failed <= most
      ensures Grew(b1, Now())
      ensures fatal.None? ==> Along(Needs(), b1, Now(), most)
      ensures fatal.None? ==> forall tid :: tid in taskEntries && Mentions(TaskIds(taskEntries[tid], k), target) ==>
              TidFn(tid) in Now().failed
      ensures fatal.Some? ==> halt && fatal.value in externalTargets && fatal.value in failedDeps
      ensures fatal.None? ==> Spared()
      decreases |Recipes(Needs()) - Elems(failedFns)|, 1, 2
    {
      hide SettledOn, Settled, Grew, GrewOn, Thinned, Cascade, Recipes, Closed, Along, DuplicateFree, NoDup, Dependees,
          Mentions, TidFn;
      ghost var g := Needs();
      ghost var b := Now();
      AlongGrows(g, b1, b, most);
      fatal := None;
      var tids := Enumerate(taskEntries.Keys);
      for i := 0 to |tids|
        invariant NoDuplicates() && Along(g, b1, Now(), most) && Grew(b1, Now()) && fatal.None? && Spared()
        invariant b.failed <= Now().failed <= most
        invariant forall tid :: tid in tids[..i] && Mentions(TaskIds(taskEntries[tid], k), target) ==>
                  TidFn(tid) in Now().failed
      {
        CardMonotone(Recipes(g) - Elems(failedFns), Recipes(g) - b.failed);
        fatal := FailTask(k, target, tids[i], b1, most);
        if fatal.Some? {
          return;
        }
      }
      assert tids[..|tids|] == tids;
    }

    /** One dependee of a removed target fails; the books b1 are those from which the target's own loss started. */
    method FailDependee(ghost k: Kind, ghost target: Name, fn: Fn, ghost b1: Books, ghost most: set<Fn>)
      returns (fatal: Option<Name>)
      requires NoDuplicates()
      requires fn in Dependees(Needs(), k, target) && fn in most
      requires Along(Needs(), b1, Now(), most)
      modifies this`buildTargets, this`runTargets, this`failedFns, this`failedDeps, this`failedRdeps
      ensures NoDuplicates()
      ensures old(Now()).failed + {fn} <= Now().failed <= most
      ensures Grew(b1, Now())
      ensures fatal.None? ==> Along(Needs(), b1, Now(), most)
      ensures fatal.Some? ==> halt && fatal.value in externalTargets && fatal.value in failedDeps
      ensures fatal.None? ==> Spared()
      decreases |Recipes(Needs()) - Elems(failedFns)|, 1, 0
    {
      hide SettledOn, GrewOn, Cascade, Along, Dependees, Recipes;
      DependeesAreRecipes(Needs(), k, target);
      assert Recipes(Needs()) + {fn} == Recipes(Needs());
      ghost var b := Now();
      fatal := FailFn(fn);
      AlongGrew(Needs(), b1, b, Now(), fn, most);
      if fatal.None? {
        AlongStep(Needs(), b1, b, Now(), fn, most);
      }
    }

    /** The recipe of one task fails if the task names the target. */
    method FailTask(k: Kind, target: Name, tid: Tid, ghost b1: Books, ghost most: set<Fn>)
      returns (fatal: Option<Name>)
      requires NoDuplicates() && tid in taskEntries
      requires Dependees(Needs(), k, target) <= most
      requires Along(Needs(), b1, Now(), most)
      modifies this`buildTargets, this`runTargets, this`failedFns, this`failedDeps, this`failedRdeps
      ensures NoDuplicates()
      ensures old(Now()).failed <= Now().failed <= most
      ensures Grew(b1, Now())
      ensures fatal.None? ==> Along(Needs(), b1, Now(), most)
      ensures fatal.None? && Mentions(TaskIds(taskEntries[tid], k), target) ==> TidFn(tid) in Now().failed
      ensures fatal.Some? ==> halt && fatal.value in externalTargets && fatal.value in failedDeps
      ensures fatal.None? ==> Spared()
      decreases |Recipes(Needs()) - Elems(failedFns)|, 1, 1
    {
      hide SettledOn, Settled, Grew, GrewOn, Thinned, Cascade, Recipes, Closed, Along, DuplicateFree, NoDup, Dependees;
      ghost var g := Needs();
      ghost var b := Now();
      AlongGrows(g, b1, b, most);
      fatal := None;
      var deps := TaskIds(taskEntries[tid], k);
      for d := 0 to |deps|
        invariant NoDuplicates() && Along(g, b1, Now(), most) && Grew(b1, Now()) && Spared()
        invariant b.failed <= Now().failed
        invariant Mentions(deps[..d], target) ==> TidFn(tid) in Now().failed
        invariant fatal.None?
      {
        if deps[d].0 == target {
          TaskDependee(g, k, target, tid, d);
          CardMonotone(Recipes(g) - Elems(failedFns), Recipes(g) - b.failed);
          fatal := FailDependee(k, target, TidFn(tid), b1, most);
          if fatal.Some? {
            return;
          }
        }
      }
      assert deps[..|deps|] == deps;
      AlongGrows(g, b1, Now(), most);
    }

    // ---------- taking recipes in ----------

    method SeenTarget(k: Kind, name: Name)
      requires NoDuplicates()
      modifies this`buildTargets, this`runTargets
      ensures NoDuplicates() && Widened(old(Now()), Now()) && name in Side(Now().listing, k)
      ensures Side(Now().listing, k).Keys == old(Side(Now().listing, k)).Keys + {name}
      ensures Side(Now().listing, Other(k)) == old(Side(Now().listing, Other(k)))
    {
      if k == BuildTime {
        if name !in buildTargets {
          buildTargets := buildTargets[name := []];
        }
      } else {
        if name !in runTargets {
          runTargets := runTargets[name := []];
        }
      }
    }

    /** add_build_target and add_runtime_target. */
    method AddTarget(k: Kind, fn: Fn, item: Name)
      requires NoDuplicates()
      modifies this`buildTargets, this`runTargets
      ensures NoDuplicates() && Listed(old(Now()), Now(), k, item, fn)
    {
      var targets := if k == BuildTime then buildTargets else runTargets;
      if item in targets {
        if fn in targets[item] {
          assert targets == targets[item := targets[item]];
          return;
        }
        NoDupPush(targets[item], fn);
        targets := targets[item := targets[item] + [fn]];
      } else {
        targets := targets[item := [fn]];
      }
      if k == BuildTime {
        buildTargets := targets;
      } else {
        runTargets := targets;
      }
    }

    /** Every target a task names becomes known. */
    method TouchAll(k: Kind, deps: seq<(Name, string)>, ghost names: set<Name>)
      requires NoDuplicates() && Heads(deps) <= names
      modifies this`buildTargets, this`runTargets
      ensures NoDuplicates() && Widened(old(Now()), Now())
      ensures Side(Now().listing, k).Keys <= old(Side(Now().listing, k)).Keys + names
      ensures Side(Now().listing, Other(k)) == old(Side(Now().listing, Other(k)))
    {
      hide NoDup, DuplicateFree, Widened;
      WidenedRefl(Now());
      ghost var b0 := Now();
      for i := 0 to |deps|
        invariant NoDuplicates() && Widened(b0, Now())
        invariant Side(Now().listing, k).Keys <= Side(b0.listing, k).Keys + names
        invariant Side(Now().listing, Other(k)) == Side(b0.listing, Other(k))
      {
        ghost var b := Now();
        assert deps[i].0 in Heads(deps);
        SeenTarget(k, deps[i].0);
        WidenedTrans(b0, b, Now());
      }
    }

    /** One entry for each task of the recipe; the targets its tasks name become known. */
    method AddTaskEntries(fn: Fn, tasks: seq<TaskDeps>, ghost names: set<Name>, ghost rnames: set<Name>)
      requires NoDuplicates()
      requires forall t :: t in tasks ==> Heads(t.depends) <= names && Heads(t.rdepends) <= rnames
      modifies this`buildTargets, this`runTargets, this`taskEntries
      ensures NoDuplicates() && Widened(old(Now()), Now())
      ensures buildTargets.Keys <= old(buildTargets).Keys + names && runTargets.Keys <= old(runTargets).Keys + rnames
      ensures taskEntries == WithEntries(old(taskEntries), fn, tasks, |tasks|)
    {
      hide NoDup, DuplicateFree, Widened;
      WidenedRefl(Now());
      ghost var b0 := Now();
      for i := 0 to |tasks|
        invariant NoDuplicates() && Widened(b0, Now())
        invariant buildTargets.Keys <= b0.listing.build.Keys + names && runTargets.Keys <= b0.listing.run.Keys + rnames
        invariant taskEntries == WithEntries(old(taskEntries), fn, tasks, i)
      {
        var t := tasks[i];
        var tdepends := [];
        for j := 0 to |t.parents|
          invariant tdepends == ParentIds(fn, tasks, t.parents[..j])
        {
          assert t.parents[..j + 1][..j] == t.parents[..j];
          if exists u :: u in tasks && u.name == t.parents[j] {
            tdepends := tdepends + [TidOf(fn, t.parents[j])];
          }
        }
        assert t.parents[..|t.parents|] == t.parents;
        ghost var b1 := Now();
        TouchAll(BuildTime, t.depends, names);
        ghost var b2 := Now();
        TouchAll(RunTime, t.rdepends, rnames);
        WidenedTrans(b0, b1, b2);
        WidenedTrans(b0, b2, Now());
        taskEntries := taskEntries[TidOf(fn, t.name) := TaskEntry(tdepends, t.depends, t.rdepends)];
      }
    }

    /** The names in the per-package lists. */
    method Collect(lists: seq<seq<Name>>) returns (names: set<Name>)
      ensures names == Elems(Flatten(lists))
    {
      names := {};
      for i := 0 to |lists|
        invariant names + Elems(Flatten(lists[i..])) == Elems(Flatten(lists))
      {
        assert lists[i..] == [lists[i]] + lists[i + 1..];
        for j := 0 to |lists[i]|
          invariant names + Elems(lists[i][j..]) + Elems(Flatten(lists[i + 1..])) == Elems(Flatten(lists))
        {
          assert lists[i][j..] == [lists[i][j]] + lists[i][j + 1..];
          names := names + {lists[i][j]};
        }
      }
    }

    /** The dependencies become known, in turn, up to the first one that has failed. */
    method TouchDeps(k: Kind, deps: seq<Name>) returns (lost: bool)
      requires NoDuplicates()
      modifies this`buildTargets, this`runTargets
      ensures NoDuplicates() && Widened(old(Now()), Now())
      ensures Side(Now().listing, k).Keys <= old(Side(Now().listing, k)).Keys + Elems(deps)
      ensures Side(Now().listing, Other(k)) == old(Side(Now().listing, Other(k)))
      ensures lost <==> exists d :: d in deps && d in Lost(Now(), k)
      ensures !lost ==> Elems(deps) <= Side(Now().listing, k).Keys
    {
      hide NoDup, DuplicateFree, Widened;
      WidenedRefl(Now());
      ghost var b0 := Now();
      for i := 0 to |deps|
        invariant NoDuplicates() && Widened(b0, Now())
        invariant Side(Now().listing, k).Keys <= Side(b0.listing, k).Keys + Elems(deps)
        invariant Side(Now().listing, Other(k)) == Side(b0.listing, Other(k))
        invariant forall j :: 0 <= j < i ==> deps[j] in Side(Now().listing, k) && deps[j] !in Lost(Now(), k)
      {
        ghost var b := Now();
        SeenTarget(k, deps[i]);
        WidenedTrans(b0, b, Now());
        if deps[i] in (if k == BuildTime then failedDeps else failedRdeps) {
          assert deps[i] in deps;
          return true;
        }
      }
      return false;
    }

    /** The first half of add_tasks: the recipe's tasks and dependencies are recorded. */
    method Record(fn: Fn, dc: DataCache)
      requires NoDuplicates() && fn in dc.recipes && fn !in seenFns
      requires Recorded(dc, Needs(), Elems(seenFns))
      modifies this`seenFns, this`taskEntries, this`depIds, this`rdepIds, this`buildTargets, this`runTargets
      ensures NoDuplicates() && Widened(old(Now()), Now())
      ensures Elems(seenFns) == old(Elems(seenFns)) + {fn}
      ensures Recorded(dc, Needs(), Elems(seenFns)) && SameIds(old(Needs()), Needs(), old(Elems(seenFns)))
      ensures taskEntries == WithEntries(old(taskEntries), fn, dc.recipes[fn].tasks, |dc.recipes[fn].tasks|)
      ensures buildTargets.Keys <= old(buildTargets).Keys + NamesOf(dc.recipes[fn], BuildTime)
      ensures runTargets.Keys <= old(runTargets).Keys + NamesOf(dc.recipes[fn], RunTime)
    {
      hide NoDup, DuplicateFree, Widened, AllNames, NamesOf, Recorded, SameIds, Flatten;
      ghost var g0, b0, seen0 := Needs(), Now(), Elems(seenFns);
      RecordedUnseen(dc, g0, seen0, fn);
      ElemsPush(seenFns, fn);
      seenFns := seenFns + [fn];
      var recipe := dc.recipes[fn];
      TaskNames(recipe);
      AddTaskEntries(fn, recipe.tasks, NamesOf(recipe, BuildTime), NamesOf(recipe, RunTime));
      RecordIds(fn, recipe);
      RecordedJoin(dc, g0, Needs(), seen0, fn);
    }

    method RecordIds(fn: Fn, recipe: RecipeDeps)
      modifies this`depIds, this`rdepIds
      ensures fn !in old(depIds) ==>
                fn in depIds && depIds == old(depIds)[fn := depIds[fn]] &&
                    Elems(depIds[fn]) == DepsOf(recipe, BuildTime)
      ensures fn !in old(rdepIds) ==>
                fn in rdepIds && rdepIds == old(rdepIds)[fn := rdepIds[fn]] &&
                    Elems(rdepIds[fn]) == DepsOf(recipe, RunTime)
      ensures fn in old(depIds) ==> depIds == old(depIds)
      ensures fn in old(rdepIds) ==> rdepIds == old(rdepIds)
    {
      if fn !in depIds {
        var ids := Enumerate(Elems(recipe.depends));
        depIds := depIds[fn := ids];
      }
      if fn !in rdepIds {
        var needed := Collect(recipe.rdepends);
        var wanted := Collect(recipe.rrecommends);
        var ids := Enumerate(needed + wanted);
        rdepIds := rdepIds[fn := ids];
      }
    }

    /** Take a recipe in: its tasks, its dependencies, and its failure if one of those has failed already. */
    method AddTasks(fn: Fn, dc: DataCache) returns (fatal: Option<Name>)
      requires NoDuplicates() && fn in dc.recipes && fn !in failedFns
      requires Recorded(dc, Needs(), Elems(seenFns))
      modifies this
      ensures NoDuplicates() && externalTargets == old(externalTargets)
      ensures Elems(seenFns) == old(Elems(seenFns)) + {fn}
      ensures Recorded(dc, Needs(), Elems(seenFns))
      ensures taskEntries == if fn in old(seenFns) then old(taskEntries)
                             else WithEntries(old(taskEntries), fn, dc.recipes[fn].tasks, |dc.recipes[fn].tasks|)
      ensures Forward(old(Now()), Now())
      ensures buildTargets.Keys <= old(buildTargets).Keys + AllNames(dc, BuildTime)
      ensures runTargets.Keys <= old(runTargets).Keys + AllNames(dc, RunTime)
      ensures fatal.Some? ==> halt
      ensures fatal.None? ==> Kept(old(Now()), Now()) && Spared()
      ensures fatal.None? && old(Tidy(Needs(), Now(), Elems(seenFns), {fn})) ==>
              Tidy(Needs(), Now(), Elems(seenFns), {})
      ensures PlainTasks(dc) && old(EntriesKnown(dc, Needs(), Elems(seenFns))) ==>
              EntriesKnown(dc, Needs(), Elems(seenFns))
      ensures fatal.None? && PlainTasks(dc) && old(Origin(dc, Now()) && EntriesKnown(dc, Needs(), Elems(seenFns))) ==>
              Follows(dc, old(Now()), old(Elems(seenFns)), Now(), Elems(seenFns), NOTHING.(seen := {fn}))
    {
      hide Kept, NoDup, DuplicateFree, Widened, Tidy, Forward, Recorded, SameIds, Settled, Grew, AllNames, NamesOf,
          Cascade, Elems, Unlisted, Origin, EntriesKnown, PlainTasks, Follows;
      ghost var g0, b0, seen0 := Needs(), Now(), Elems(seenFns);
      ForwardRefl(b0);
      fatal := None;
      InElems(seenFns, fn);
      if fn in seenFns {
        assert seen0 + {fn} == seen0;
        SeenIsNotExtra(g0, b0, seen0, fn);
        KeptRefl(b0);
        FollowsRefl(dc, b0, seen0, NOTHING.(seen := {fn}));
        return;
      }
      Record(fn, dc);
      if PlainTasks(dc) && EntriesKnown(dc, g0, seen0) {
        EntriesJoin(dc, g0, Needs(), seen0, fn, |dc.recipes[fn].tasks|);
      }
      NamesAreNames(dc, BuildTime, fn);
      NamesAreNames(dc, RunTime, fn);
      fatal := CheckDeps(fn, dc, g0, b0, seen0);
    }

    /** The second half of add_tasks: a dependency that has failed already fails the recipe. */
    method CheckDeps(fn: Fn, dc: DataCache, ghost g0: Graph, ghost b0: Books, ghost seen0: set<Fn>)
        returns (fatal: Option<Name>)
      requires NoDuplicates() && fn in dc.recipes
      requires Recorded(dc, Needs(), seen0 + {fn}) && SameIds(g0, Needs(), seen0) && Widened(b0, Now())
      requires buildTargets.Keys <= b0.listing.build.Keys + NamesOf(dc.recipes[fn], BuildTime)
      requires runTargets.Keys <= b0.listing.run.Keys + NamesOf(dc.recipes[fn], RunTime)
      modifies this`buildTargets, this`runTargets, this`failedFns, this`failedDeps, this`failedRdeps
      ensures NoDuplicates()
      ensures Forward(b0, Now())
      ensures buildTargets.Keys <= b0.listing.build.Keys + NamesOf(dc.recipes[fn], BuildTime)
      ensures runTargets.Keys <= b0.listing.run.Keys + NamesOf(dc.recipes[fn], RunTime)
      ensures fatal.Some? ==> halt
      ensures fatal.None? ==> Kept(b0, Now()) && Spared()
      ensures fatal.None? && Tidy(g0, b0, seen0, {fn}) ==> Tidy(Needs(), Now(), seen0 + {fn}, {})
      ensures fatal.None? && Origin(dc, b0) && EntriesKnown(dc, Needs(), seen0 + {fn}) ==>
              Follows(dc, b0, seen0, Now(), seen0 + {fn}, NOTHING.(seen := {fn}))
    {
      hide Kept, NoDup, DuplicateFree, Widened, Tidy, Forward, Recorded, SameIds, Settled, Grew, AllNames, NamesOf,
          Cascade, Elems, Unlisted, Origin, EntriesKnown, Follows;
      ghost var g := Needs();
      RecordedFor(dc, g, seen0 + {fn}, fn);
      fatal := None;
      var lost, b3 := LookForLost(fn, dc, b0);
      WidenedForward(b0, b3);
      WidenedKept(b0, b3);
      TakingIn(dc, b0, b3, seen0, fn);
      if lost {
        fatal := FailFn(fn);
        InElems(failedFns, fn);
        GrewForward(b3, Now());
        ForwardTrans(b0, b3, Now());
        if fatal.None? {
          SettledKept(g, b3, Now(), {}, {});
          KeptThrough(b0, b3, Now());
          FailedAtOnce(fn, dc, g, b0, b3, seen0);
        }
        if fatal.None? && Tidy(g0, b0, seen0, {fn}) {
          TidyJoinFailed(g0, g, b0, b3, Now(), seen0, fn);
        }
      } else if Tidy(g0, b0, seen0, {fn}) {
        TidyJoin(g0, g, b0, b3, seen0, fn);
      }
    }

    lemma FailedAtOnce(fn: Fn, dc: DataCache, g: Graph, b0: Books, b3: Books, seen0: set<Fn>)
      requires Recorded(dc, g, seen0 + {fn}) && fn in dc.recipes && Kept(b0, b3)
      requires exists k, d :: d in DepsOf(dc.recipes[fn], k) && d in Lost(b3, k)
      requires Settled(g, b3, Now(), {}, {}) && Elems(failedFns) <= Cascade(g, b3.listing, b3.failed + {fn})
      requires Follows(dc, b0, seen0, b3, seen0 + {fn}, NOTHING.(seen := {fn}))
      ensures Origin(dc, b0) && EntriesKnown(dc, g, seen0 + {fn}) ==>
              Follows(dc, b0, seen0, Now(), seen0 + {fn}, NOTHING.(seen := {fn}))
    {
      hide Recorded, Kept, Settled, Cascade, Follows, Origin, EntriesKnown;
      if Origin(dc, b0) && EntriesKnown(dc, g, seen0 + {fn}) {
        OriginKept(dc, b0, b3);
        var k, d :| d in DepsOf(dc.recipes[fn], k) && d in Lost(b3, k);
        FailingAtOnce(dc, g, b3, Now(), seen0 + {fn}, fn, k, d);
        FollowsMore(dc, b3, seen0 + {fn}, Now(), seen0 + {fn}, NOTHING, NOTHING.(seen := {fn}));
        FollowsTrans(dc, b0, seen0, b3, seen0 + {fn}, Now(), seen0 + {fn}, NOTHING.(seen := {fn}));
      }
    }

    /** The recipe's dependencies become known, up to the first one that has been lost. */
    method LookForLost(fn: Fn, dc: DataCache, ghost b0: Books) returns (lost: bool, ghost b3: Books)
      requires NoDuplicates() && fn in dc.recipes && fn in depIds && fn in rdepIds && Widened(b0, Now())
      requires Elems(depIds[fn]) == DepsOf(dc.recipes[fn], BuildTime)
      requires Elems(rdepIds[fn]) == DepsOf(dc.recipes[fn], RunTime)
      requires buildTargets.Keys <= b0.listing.build.Keys + NamesOf(dc.recipes[fn], BuildTime)
      requires runTargets.Keys <= b0.listing.run.Keys + NamesOf(dc.recipes[fn], RunTime)
      modifies this`buildTargets, this`runTargets
      ensures NoDuplicates() && b3 == Now() && Widened(b0, Now())
      ensures lost <==> exists k, d :: d in DepsOf(dc.recipes[fn], k) && d in Lost(Now(), k)
      ensures !lost ==> forall k :: Elems(Ids(Needs(), k)[fn]) <= Side(Now().listing, k).Keys
      ensures !lost ==> forall k, d :: d in Ids(Needs(), k)[fn] ==> d !in Lost(Now(), k)
      ensures buildTargets.Keys <= b0.listing.build.Keys + NamesOf(dc.recipes[fn], BuildTime)
      ensures runTargets.Keys <= b0.listing.run.Keys + NamesOf(dc.recipes[fn], RunTime)
    {
      hide NoDup, DuplicateFree, Widened, NamesOf, Elems;
      TaskNames(dc.recipes[fn]);
      ghost var b1 := Now();
      lost := TouchDeps(BuildTime, depIds[fn]);
      WidenedTrans(b0, b1, Now());
      ghost var b2 := Now();
      DepsInElems(depIds[fn], DepsOf(dc.recipes[fn], BuildTime));
      DepsInElems(rdepIds[fn], DepsOf(dc.recipes[fn], RunTime));
      if !lost {
        lost := TouchDeps(RunTime, rdepIds[fn]);
        WidenedTrans(b0, b2, Now());
        SameLosses(b1, b2);
        SameLosses(b2, Now());
      }
      b3 := Now();
    }

    lemma DepsInElems(deps: seq<Name>, names: set<Name>)
      requires Elems(deps) == names
      ensures forall d :: d in deps <==> d in names
    {
    }

    lemma SameLosses(b1: Books, b2: Books)
      requires Widened(b1, b2)
      ensures forall k :: Lost(b2, k) == Lost(b1, k) && Side(b1.listing, k).Keys <= Side(b2.listing, k).Keys
    {
    }

    // ---------- resolving targets ----------

    /** Holds between any two calls when no exception can cut a cascade short. */
    ghost predicate Steady(dc: DataCache)
      reads this
    {
      && Tidy(Needs(), Now(), Elems(seenFns), {}) && Origin(dc, Now())
      && (PlainTasks(dc) ==> EntriesKnown(dc, Needs(), Elems(seenFns)))
    }

    ghost predicate Valid(dc: DataCache)
      reads this
    {
      && NoDuplicates() && WellFormed(dc) && Recorded(dc, Needs(), Elems(seenFns))
      && (!halt ==> Steady(dc))
    }

    /** Eligible recipes that have not failed, in the given order. */
    method Unfailed(fns: seq<Fn>) returns (r: seq<Fn>)
      ensures forall f :: f in r <==> f in fns && f !in failedFns
      ensures r == Without(fns, Elems(failedFns))
    {
      hide Without;
      r := [];
      assert Without([], Elems(failedFns)) == [] by {
        WithoutElems([], Elems(failedFns));
      }
      for i := 0 to |fns|
        invariant r == Without(fns[..i], Elems(failedFns))
      {
        assert fns[..i + 1] == fns[..i] + [fns[i]];
        WithoutPush(fns[..i], fns[i], Elems(failedFns));
        if fns[i] !in failedFns {
          r := r + [fns[i]];
        }
      }
      assert fns[..|fns|] == fns;
      WithoutElems(fns, Elems(failedFns));
    }

    /** The recipes of the list are taken in, one after the other, as providers of the target. */
    method AddAll(k: Kind, fns: seq<Fn>, item: Name, dc: DataCache) returns (fatal: Option<Name>)
      requires Valid(dc) && Elems(fns) <= dc.recipes.Keys
      requires !dc.ignored(item) && forall f :: f in fns ==> f in Candidates(dc, k, item)
      modifies this
      ensures Valid(dc) && externalTargets == old(externalTargets)
      ensures Forward(old(Now()), Now())
      ensures fatal.Some? ==> halt
      ensures fatal.None? && (exists f :: f in fns && f !in old(failedFns)) ==> Done(Now(), k, item)
      ensures fatal.None? ==> KeptBut(old(Now()), Now(), (k, item)) && Spared()
      ensures !halt && PlainTasks(dc) ==>
              Follows(dc, old(Now()), old(Elems(seenFns)), Now(), Elems(seenFns), NeedOf(k, item))
      ensures fatal.None? && NoDup(fns) && old(ListOf(Now(), k, item)) == [] ==> Chosen(Now(), k, item, fns, |fns|)
      ensures !halt && fns != [] && fns[0] !in old(failedFns) && old(ListOf(Now(), k, item)) == [] &&
              BoundToFail(dc, old(Now()), fns[0]) ==>
              item in Lost(Now(), k) && fns[0] in Now().failed
      ensures fatal.None? ==> forall f :: f in fns && f !in failedFns ==> f in seenFns
      ensures old(Elems(seenFns)) <= Elems(seenFns) <= old(Elems(seenFns)) + Elems(fns)
      ensures buildTargets.Keys <= old(buildTargets).Keys + AllNames(dc, BuildTime) +
              (if k == BuildTime then {item} else {})
      ensures runTargets.Keys <= old(runTargets).Keys + AllNames(dc, RunTime) + (if k == RunTime then {item} else {})
    {
      hide Tidy, Forward, Recorded, AllNames, NoDuplicates, WellFormed, Done, Listed, Kept, KeptBut, Chosen, Origin,
          EntriesKnown, PlainTasks, Follows, Candidates, BoundToFail, ListOf;
      ghost var b0, s0 := Now(), Elems(seenFns);
      ForwardRefl(b0);
      FollowsRefl(dc, b0, s0, NeedOf(k, item));
      ChosenStart(b0, k, item, fns);
      fatal := None;
      for i := 0 to |fns|
        invariant Valid(dc) && externalTargets == old(externalTargets) && fatal.None?
        invariant Forward(b0, Now())
        invariant failedFns == old(failedFns) || Done(Now(), k, item)
        invariant (exists j :: 0 <= j < i && fns[j] !in old(failedFns)) ==> Done(Now(), k, item)
        invariant KeptBut(b0, Now(), (k, item)) && Spared()
        invariant !halt && PlainTasks(dc) ==> Follows(dc, b0, s0, Now(), Elems(seenFns), NeedOf(k, item))
        invariant NoDup(fns) && ListOf(b0, k, item) == [] ==> Chosen(Now(), k, item, fns, i)
        invariant i == 0 ==> Now() == b0 && failedFns == old(failedFns)
        invariant !halt && i > 0 && fns[0] !in old(failedFns) && ListOf(b0, k, item) == [] &&
                  BoundToFail(dc, b0, fns[0]) ==>
                  item in Lost(Now(), k) && fns[0] in Now().failed
        invariant forall j :: 0 <= j < i ==> fns[j] in Now().failed || fns[j] in Elems(seenFns)
        invariant old(Elems(seenFns)) <= Elems(seenFns) <= old(Elems(seenFns)) + Elems(fns)
        invariant buildTargets.Keys <= b0.listing.build.Keys + AllNames(dc, BuildTime) +
                  (if k == BuildTime then {item} else {})
        invariant runTargets.Keys <= b0.listing.run.Keys + AllNames(dc, RunTime) + (if k == RunTime then {item} else {})
      {
        assert fns[i] in Elems(fns);
        ghost var b1, s1 := Now(), Elems(seenFns);
        if fns[i] !in failedFns {
          ghost var b2;
          fatal, b2 := AddOne(k, fns[i], item, dc);
          ForwardTrans(b0, b1, Now());
          ForwardDone(b1, Now(), k, item);
          if fatal.Some? {
            return;
          }
          ChosenStep(b0, b1, b2, Now(), k, item, fns, i);
          if !halt && PlainTasks(dc) {
            FollowsTrans(dc, b0, s0, b1, s1, Now(), Elems(seenFns), NeedOf(k, item));
          }
        } else if NoDup(fns) && ListOf(b0, k, item) == [] {
          ChosenSkip(b1, k, item, fns, i);
        }
      }
    }

    /** One recipe is listed for the target and taken in; b2 are the books in between. */
    method AddOne(k: Kind, fn: Fn, item: Name, dc: DataCache) returns (fatal: Option<Name>, ghost b2: Books)
      requires Valid(dc) && fn in dc.recipes && fn !in failedFns
      requires !dc.ignored(item) && fn in Candidates(dc, k, item)
      modifies this
      ensures Valid(dc) && externalTargets == old(externalTargets)
      ensures Forward(old(Now()), Now())
      ensures fatal.Some? ==> halt
      ensures fatal.None? ==> Done(Now(), k, item) && Spared()
      ensures Listed(old(Now()), b2, k, item, fn) && (fatal.None? ==> Kept(b2, Now()))
      ensures !halt && old(ListOf(Now(), k, item)) == [] && BoundToFail(dc, old(Now()), fn) ==>
              item in Lost(Now(), k) && fn in Now().failed
      ensures Elems(seenFns) == old(Elems(seenFns)) + {fn} && fn in seenFns
      ensures !halt && PlainTasks(dc) ==>
              Follows(dc, old(Now()), old(Elems(seenFns)), Now(), Elems(seenFns), NeedOf(k, item))
      ensures buildTargets.Keys <= old(buildTargets).Keys + AllNames(dc, BuildTime) +
              (if k == BuildTime then {item} else {})
      ensures runTargets.Keys <= old(runTargets).Keys + AllNames(dc, RunTime) + (if k == RunTime then {item} else {})
    {
      hide Tidy, Forward, Recorded, AllNames, NoDuplicates, WellFormed, Done, Listed, Kept, Origin, EntriesKnown,
          PlainTasks, Follows, Candidates, BoundToFail, ListOf;
      ghost var b1, s1 := Now(), Elems(seenFns);
      AddTarget(k, fn, item);
      b2 := Now();
      ListedForward(b1, b2, k, item, fn);
      if !halt {
        ListedTidy(Needs(), b1, b2, s1, fn, k, item);
        OriginListed(dc, b1, b2, k, item, fn);
        ListingFollows(dc, b1, b2, s1, k, item, fn);
      }
      fatal := AddTasks(fn, dc);
      ForwardTrans(b1, b2, Now());
      ForwardDone(b2, Now(), k, item);
      InElems(seenFns, fn);
      if !halt {
        if ListOf(b1, k, item) == [] && BoundToFail(dc, b1, fn) {
          ForwardLosses(b1, Now());
          LostAtOnce(dc, Needs(), b1, b2, Now(), Elems(seenFns), k, item, fn);
        }
        OriginKept(dc, b2, Now());
        if PlainTasks(dc) {
          CandidateFollows(dc, b2, s1, Now(), Elems(seenFns), k, item, fn);
          FollowsTrans(dc, b1, s1, b2, s1, Now(), Elems(seenFns), NeedOf(k, item));
        }
      }
    }

    /**
     Without an exception on the way, a target that had no provider is given all its eligible recipes
     that have not failed by the end, in their order; other targets keep theirs, but for failed ones.
     */
    method AddProviderInternal(item: Name, dc: DataCache) returns (r: Outcome)
      requires Valid(dc)
      modifies this
      ensures Valid(dc) && externalTargets == old(externalTargets)
      ensures Forward(old(Now()), Now())
      ensures r.Resolved? ==> dc.ignored(item) || Done(Now(), BuildTime, item)
      ensures r.Resolved? || r.NoProvider?
      ensures r.NoProvider? && !halt ==>
              r == NoProvider(item) && Now() == old(Now()) && seenFns == old(seenFns) &&
              NoneLeft(dc, Now().failed, item)
      ensures !halt ==> (r == NoProvider(item) <==> !dc.ignored(item) && old(Orphan(dc, Now(), item)))
      ensures dc.ignored(item) || old(ListOf(Now(), BuildTime, item)) != [] ==>
              Now() == old(Now()) && seenFns == old(seenFns)
      ensures r.Resolved? && !dc.ignored(item) && old(ListOf(Now(), BuildTime, item)) == [] ==>
              Taken(old(Now()), BuildTime, item, dc.eligible(item))
      ensures r.Resolved? ==> Spared()
      ensures !halt ==> Led(dc, old(Now()), old(Elems(seenFns)), Now(), Elems(seenFns), NeedOf(BuildTime, item))
      ensures !halt && r.Resolved? && !dc.ignored(item) && old(ListOf(Now(), BuildTime, item)) == [] ==>
                var left := Without(dc.eligible(item), old(Elems(failedFns)));
                left != [] && (BoundToFail(dc, old(Now()), left[0]) ==> item in failedDeps && left[0] in Now().failed)
      ensures buildTargets.Keys <= old(buildTargets).Keys + AllNames(dc, BuildTime) + {item}
      ensures runTargets.Keys <= old(runTargets).Keys + AllNames(dc, RunTime)
    {
      hide Tidy, Forward, Recorded, AllNames, NoDuplicates, Taken, Led, Follows, Origin, EntriesKnown, PlainTasks,
          BoundToFail;
      ForwardRefl(Now());
      LedRefl(dc, Now(), Elems(seenFns), NeedOf(BuildTime, item));
      if dc.ignored(item) {
        return Resolved;
      }
      if item !in dc.provided {
        return NoProvider(item);
      }
      if item in buildTargets && buildTargets[item] != [] {
        return Resolved;
      }
      var eligible := Unfailed(dc.eligible(item));
      WithoutElems(dc.eligible(item), Elems(failedFns));
      InElems(failedFns, if eligible == [] then "" else eligible[0]);
      if eligible == [] {
        return NoProvider(item);
      }
      assert eligible[0] in eligible;
      ghost var b0, s0 := Now(), Elems(seenFns);
      var fatal := AddAll(BuildTime, eligible, item, dc);
      if fatal.None? {
        AllTaken(b0, BuildTime, item, dc.eligible(item), eligible);
        TakenLed(dc, b0, s0, BuildTime, item);
      }
      r := if fatal.Some? then NoProvider(fatal.value) else Resolved;
    }

    /** The target's providers are now those of the given recipes that have not failed, in order, and all are seen. */
    ghost predicate Taken(b0: Books, k: Kind, item: Name, fns: seq<Fn>)
      reads this`buildTargets, this`runTargets, this`failedFns, this`failedDeps, this`failedRdeps, this`seenFns
    {
      && (NoDup(fns) ==> ListOf(Now(), k, item) == Without(fns, Elems(failedFns)))
      && (forall f :: f in fns && f !in failedFns ==> f in seenFns)
      && KeptBut(b0, Now(), (k, item))
    }

    lemma AllTaken(b0: Books, k: Kind, item: Name, all: seq<Fn>, fns: seq<Fn>)
      requires fns == Without(all, b0.failed) && KeptBut(b0, Now(), (k, item))
      requires NoDup(fns) ==> Chosen(Now(), k, item, fns, |fns|)
      requires forall f :: f in fns && f !in failedFns ==> f in seenFns
      ensures Taken(b0, k, item, all)
    {
      WithoutElems(all, b0.failed);
      if NoDup(all) {
        ChosenOfAll(b0, Now(), k, item, all, fns);
      }
      forall f | f in all && f !in failedFns ensures f in seenFns {
        InElems(failedFns, f);
      }
    }

    /**
     The first recipe for a target is bound to fail, the second would do. The target is lost, and
     whoever needs it fails, before the second is listed for it.
     */
    method LostTooSoon(item: Name, a: Fn, b: Fn, dc: DataCache) returns (r: Outcome)
      requires Valid(dc) && !halt && dc.provided == {item} && dc.eligible(item) == [a, b] && a != b && !dc.ignored(item)
      requires item !in buildTargets && a !in failedFns && BoundToFail(dc, Now(), a) && b !in failedFns
      modifies this
      ensures r.Resolved? && item in failedDeps && a in failedFns
      ensures b !in failedFns ==> item in buildTargets && buildTargets[item] == [b]
    {
      TwoLeft(a, b, Elems(failedFns));
      InElems(failedFns, a);
      r := AddProviderInternal(item, dc);
      TwoLeft(a, b, Elems(failedFns));
      InElems(failedFns, a);
      InElems(failedFns, b);
    }

    lemma TwoLeft(a: Fn, b: Fn, failed: set<Fn>)
      ensures Without([a, b], failed) == (if a in failed then [] else [a]) + (if b in failed then [] else [b])
    {
      assert [a, b] == [a] + [b] && [a] == [] + [a];
      WithoutPush([a], b, failed);
      WithoutPush([], a, failed);
      WithoutElems([], failed);
    }

    lemma TakenLed(dc: DataCache, b0: Books, s0: set<Fn>, k: Kind, item: Name)
      requires Taken(b0, k, item, Candidates(dc, k, item))
      requires !halt && PlainTasks(dc) ==> Follows(dc, b0, s0, Now(), Elems(seenFns), NeedOf(k, item))
      ensures !halt ==> Led(dc, b0, s0, Now(), Elems(seenFns), NeedOf(k, item))
    {
      hide Follows, KeptBut;
      if Single(dc) && Sourced(dc, b0) {
        assert NoDup(Candidates(dc, k, item));
        SourcedBut(dc, b0, Now(), k, item);
      }
    }

    method AddRprovider(item: Name, dc: DataCache) returns (r: Outcome)
      requires Valid(dc)
      modifies this
      ensures Valid(dc) && externalTargets == old(externalTargets)
      ensures Forward(old(Now()), Now())
      ensures r.Resolved? ==> dc.ignored(item) || Done(Now(), RunTime, item)
      ensures r.NoProvider? ==> halt
      ensures r.NoRProvider? || r.MultipleRProvider? ==> Now() == old(Now()) && seenFns == old(seenFns)
      ensures r.NoRProvider? <==> !dc.ignored(item) && old(RunOrphan(dc, Now(), item))
      ensures r.MultipleRProvider? <==>
              !dc.ignored(item) && old(ListOf(Now(), RunTime, item) == [] && !RunOrphan(dc, Now(), item)) &&
              dc.eligibleRun(item).1 > 1
      ensures dc.ignored(item) || old(ListOf(Now(), RunTime, item)) != [] ==>
              Now() == old(Now()) && seenFns == old(seenFns)
      ensures r.Resolved? && !dc.ignored(item) && old(ListOf(Now(), RunTime, item)) == [] ==>
              Taken(old(Now()), RunTime, item, dc.eligibleRun(item).0)
      ensures r.Resolved? ==> Spared()
      ensures !halt ==> Led(dc, old(Now()), old(Elems(seenFns)), Now(), Elems(seenFns), NeedOf(RunTime, item))
      ensures buildTargets.Keys <= old(buildTargets).Keys + AllNames(dc, BuildTime)
      ensures runTargets.Keys <= old(runTargets).Keys + AllNames(dc, RunTime) + {item}
    {
      hide Tidy, Forward, Recorded, AllNames, NoDuplicates, Taken, Led, Follows, Origin, EntriesKnown, PlainTasks;
      ForwardRefl(Now());
      LedRefl(dc, Now(), Elems(seenFns), NeedOf(RunTime, item));
      if dc.ignored(item) {
        return Resolved;
      }
      if item in runTargets && runTargets[item] != [] {
        return Resolved;
      }
      if dc.runProviders(item) == [] {
        return NoRProvider(item);
      }
      var (candidates, preferred) := dc.eligibleRun(item);
      var eligible := Unfailed(candidates);
      WithoutElems(candidates, Elems(failedFns));
      if eligible == [] {
        return NoRProvider(item);
      }
      assert eligible[0] in eligible;
      if preferred > 1 {
        return MultipleRProvider(item);
      }
      ghost var b0, s0 := Now(), Elems(seenFns);
      var fatal := AddAll(RunTime, eligible, item, dc);
      if fatal.None? {
        AllTaken(b0, RunTime, item, candidates, eligible);
        TakenLed(dc, b0, s0, RunTime, item);
      }
      r := if fatal.Some? then NoProvider(fatal.value) else Resolved;
    }

    /** After a target of which there is no hope was removed. */
    lemma StillSteady(dc: DataCache, b0: Books, k: Kind, t: Name)
      requires Recorded(dc, Needs(), Elems(seenFns)) && Tidy(Needs(), b0, Elems(seenFns), {}) && Origin(dc, b0)
      requires PlainTasks(dc) ==> EntriesKnown(dc, Needs(), Elems(seenFns))
      requires !dc.ignored(t) && if k == BuildTime then NoneLeft(dc, b0.failed, t) else Refused(dc, b0.failed, t)
      requires Settled(Needs(), b0, Now(), if k == BuildTime then {t} else {}, if k == RunTime then {t} else {})
      requires Now().failed <= Cascade(Needs(), b0.listing, b0.failed + Dependees(Needs(), k, t))
      ensures Steady(dc) && Led(dc, b0, Elems(seenFns), Now(), Elems(seenFns), NOTHING)
    {
      hide Tidy, Origin, Recorded, EntriesKnown, Led, Settled, Cascade, Dependees, NoneLeft, Refused, PlainTasks;
      TidyAfterCascade(Needs(), b0, Now(), Elems(seenFns), {}, if k == BuildTime then {t} else {},
        if k == RunTime then {t} else {});
      GivingUpLeads(dc, Needs(), b0, Now(), Elems(seenFns), k, t);
    }

    /** An externally requested build target. */
    method AddProvider(item: Name, dc: DataCache) returns (r: Outcome)
      requires Valid(dc)
      modifies this
      ensures Valid(dc)
      ensures r.Resolved? ==> dc.ignored(item) || Done(Now(), BuildTime, item)
      ensures r.Resolved? ==> item in externalTargets && Elems(externalTargets) == old(Elems(externalTargets)) + {item}
      ensures !r.Resolved? ==> r.NoProvider? && halt
      ensures Forward(old(Now()), Now())
      ensures halt && r.Resolved? ==>
              forall t :: t in old(externalTargets) && t in failedDeps ==> t in old(failedDeps)
      ensures !halt && !dc.ignored(item) && old(Orphan(dc, Now(), item)) ==> item in failedDeps
      ensures !halt && !dc.ignored(item) && !old(Orphan(dc, Now(), item)) &&
              old(ListOf(Now(), BuildTime, item)) == [] ==>
              Taken(old(Now()), BuildTime, item, dc.eligible(item))
      ensures !halt ==> Led(dc, old(Now()), old(Elems(seenFns)), Now(), Elems(seenFns), NeedOf(BuildTime, item))
    {
      hide Tidy, Forward, Recorded, NoDuplicates, Settled, Grew, Dependees, Cascade, Led, Origin, EntriesKnown,
          PlainTasks, Taken, NoneLeft, Orphan, Follows;
      r := AddProviderInternal(item, dc);
      if r.NoProvider? {
        if halt {
          return;
        }
        ghost var b1 := Now();
        var fatal := RemoveBuildTarget(item);
        GrewForward(b1, Now());
        StillSteady(dc, b1, BuildTime, item);
        LedMore(dc, b1, Elems(seenFns), Now(), Elems(seenFns), NOTHING, NeedOf(BuildTime, item));
        r := Resolved;
      }
      if item !in externalTargets {
        ElemsPush(externalTargets, item);
        externalTargets := externalTargets + [item];
      }
      assert Elems(externalTargets) == old(Elems(externalTargets)) + {item};
    }

    method Unresolved(k: Kind, dc: DataCache) returns (r: seq<Name>)
      ensures NoDup(r)
      ensures forall t :: t in r <==> t in Side(Now().listing, k) && !dc.ignored(t) && !Done(Now(), k, t)
    {
      r := [];
      var targets := if k == BuildTime then buildTargets else runTargets;
      var failed := if k == BuildTime then failedDeps else failedRdeps;
      var order := Enumerate(targets.Keys);
      for i := 0 to |order|
        invariant NoDup(r)
        invariant forall t :: t in r <==> t in order[..i] && !dc.ignored(t) && !Done(Now(), k, t)
      {
        var target := order[i];
        if dc.ignored(target) || target in failed {
          continue;
        }
        if targets[target] == [] {
          NoDupPush(r, target);
          r := r + [target];
        }
      }
      assert order[..|order|] == order;
    }

    /** One pass over the build targets that had no provider when the pass began. */
    method ResolveBuildTargets(todo: seq<Name>, dc: DataCache) returns (added: nat, r: Outcome)
      requires Valid(dc) && forall t :: t in todo ==> !dc.ignored(t) && t in buildTargets
      modifies this
      ensures Valid(dc) && externalTargets == old(externalTargets)
      ensures Forward(old(Now()), Now())
      ensures buildTargets.Keys <= old(buildTargets).Keys + AllNames(dc, BuildTime)
      ensures runTargets.Keys <= old(runTargets).Keys + AllNames(dc, RunTime)
      ensures !halt ==> r.Resolved? && Led(dc, old(Now()), old(Elems(seenFns)), Now(), Elems(seenFns), NOTHING)
      ensures !r.Resolved? ==> r.NoProvider?
      ensures added > 0 ==> exists t :: t in todo && Done(Now(), BuildTime, t)
      ensures r.Resolved? && !halt ==> forall t :: t in todo ==> Handled(dc, Now(), BuildTime, t, allowIncomplete)
      ensures r.Resolved? && !halt && added == 0 ==>
                buildTargets.Keys == old(buildTargets).Keys && runTargets.Keys == old(runTargets).Keys
    {
      hide Tidy, Forward, Recorded, AllNames, NoDuplicates, Led, Origin, EntriesKnown, PlainTasks, Handled, Done,
          WellFormed;
      ghost var b0, s0 := Now(), Elems(seenFns);
      ForwardRefl(b0);
      LedRefl(dc, b0, s0, NOTHING);
      added, r := 0, Resolved;
      for i := 0 to |todo|
        invariant Valid(dc) && externalTargets == old(externalTargets) && r.Resolved?
        invariant Forward(b0, Now())
        invariant !halt ==> Led(dc, b0, s0, Now(), Elems(seenFns), NOTHING)
        invariant buildTargets.Keys <= b0.listing.build.Keys + AllNames(dc, BuildTime)
        invariant runTargets.Keys <= b0.listing.run.Keys + AllNames(dc, RunTime)
        invariant added > 0 ==> exists t :: t in todo && Done(Now(), BuildTime, t)
        invariant !halt ==> forall j :: 0 <= j < i ==> Handled(dc, Now(), BuildTime, todo[j], allowIncomplete)
        invariant !halt && added == 0 ==>
                  buildTargets.Keys == b0.listing.build.Keys && runTargets.Keys == b0.listing.run.Keys
      {
        ghost var b1, s1 := Now(), Elems(seenFns);
        ghost var held: Name := todo[i];
        if added > 0 {
          held :| held in todo && Done(b1, BuildTime, held);
        }
        ForwardKnown(b0, b1, BuildTime, todo[i]);
        var provided, o := ResolveBuildTarget(todo[i], dc);
        ForwardTrans(b0, b1, Now());
        ForwardDone(b1, Now(), BuildTime, held);
        HandledForward(dc, b1, Now(), BuildTime, allowIncomplete);
        if !o.Resolved? {
          return added, o;
        }
        if !halt {
          LedTrans(dc, b0, s0, b1, s1, Now(), Elems(seenFns), NOTHING);
        }
        if provided {
          added := added + 1;
          assert todo[i] in todo && Done(Now(), BuildTime, todo[i]);
        }
      }
    }

    /** One turn of that loop; provided says that the call returned normally. */
    method ResolveBuildTarget(target: Name, dc: DataCache) returns (provided: bool, r: Outcome)
      requires Valid(dc) && !dc.ignored(target) && target in buildTargets
      modifies this
      ensures Valid(dc) && externalTargets == old(externalTargets)
      ensures Forward(old(Now()), Now())
      ensures buildTargets.Keys <= old(buildTargets).Keys + AllNames(dc, BuildTime)
      ensures runTargets.Keys <= old(runTargets).Keys + AllNames(dc, RunTime)
      ensures !halt ==> r.Resolved? && Led(dc, old(Now()), old(Elems(seenFns)), Now(), Elems(seenFns), NOTHING)
      ensures !r.Resolved? ==> r.NoProvider?
      ensures provided ==> Done(Now(), BuildTime, target)
      ensures r.Resolved? && !halt ==> Handled(dc, Now(), BuildTime, target, allowIncomplete)
      ensures !halt && !provided ==>
                buildTargets.Keys == old(buildTargets).Keys && runTargets.Keys == old(runTargets).Keys
    {
      hide Tidy, Forward, Recorded, AllNames, NoDuplicates, Settled, Grew, Dependees, Cascade, Led, Origin,
          EntriesKnown, PlainTasks, Taken, NoneLeft, Orphan;
      ghost var b1, s1 := Now(), Elems(seenFns);
      var o := AddProviderInternal(target, dc);
      ghost var b2 := Now();
      if !halt {
        LedKnown(dc, b1, s1, b2, Elems(seenFns), BuildTime, target);
      }
      if o.Resolved? {
        return true, Resolved;
      }
      if halt && target in externalTargets && !allowIncomplete {
        return false, o;
      }
      if !allowIncomplete {
        var fatal := RemoveBuildTarget(target);
        GrewForward(b2, Now());
        ForwardTrans(b1, b2, Now());
        if fatal.Some? {
          return false, NoProvider(fatal.value);
        }
        if !halt {
          StillSteady(dc, b2, BuildTime, target);
          LedTrans(dc, b1, s1, b2, Elems(seenFns), Now(), Elems(seenFns), NOTHING);
        }
      }
      return false, Resolved;
    }

    /** One pass over the run-time targets that had no provider when the pass began. */
    method ResolveRunTargets(todo: seq<Name>, dc: DataCache) returns (added: nat, r: Outcome)
      requires Valid(dc) && forall t :: t in todo ==> !dc.ignored(t) && t in runTargets
      modifies this
      ensures Valid(dc) && externalTargets == old(externalTargets)
      ensures Forward(old(Now()), Now())
      ensures buildTargets.Keys <= old(buildTargets).Keys + AllNames(dc, BuildTime)
      ensures runTargets.Keys <= old(runTargets).Keys + AllNames(dc, RunTime)
      ensures !halt ==> r.Resolved? && Led(dc, old(Now()), old(Elems(seenFns)), Now(), Elems(seenFns), NOTHING)
      ensures !r.Resolved? ==> r.NoProvider?
      ensures added > 0 ==> exists t :: t in todo && Done(Now(), RunTime, t)
      ensures r.Resolved? && !halt ==> forall t :: t in todo ==> Handled(dc, Now(), RunTime, t, allowIncomplete)
      ensures r.Resolved? && !halt && added == 0 ==>
                buildTargets.Keys == old(buildTargets).Keys && runTargets.Keys == old(runTargets).Keys
    {
      hide Tidy, Forward, Recorded, AllNames, NoDuplicates, Led, Origin, EntriesKnown, PlainTasks, Handled, Done,
          WellFormed;
      ghost var b0, s0 := Now(), Elems(seenFns);
      ForwardRefl(b0);
      LedRefl(dc, b0, s0, NOTHING);
      added, r := 0, Resolved;
      for i := 0 to |todo|
        invariant Valid(dc) && externalTargets == old(externalTargets) && r.Resolved?
        invariant Forward(b0, Now())
        invariant !halt ==> Led(dc, b0, s0, Now(), Elems(seenFns), NOTHING)
        invariant buildTargets.Keys <= b0.listing.build.Keys + AllNames(dc, BuildTime)
        invariant runTargets.Keys <= b0.listing.run.Keys + AllNames(dc, RunTime)
        invariant added > 0 ==> exists t :: t in todo && Done(Now(), RunTime, t)
        invariant !halt ==> forall j :: 0 <= j < i ==> Handled(dc, Now(), RunTime, todo[j], allowIncomplete)
        invariant !halt && added == 0 ==>
                  buildTargets.Keys == b0.listing.build.Keys && runTargets.Keys == b0.listing.run.Keys
      {
        ghost var b1, s1 := Now(), Elems(seenFns);
        ghost var held: Name := todo[i];
        if added > 0 {
          held :| held in todo && Done(b1, RunTime, held);
        }
        ForwardKnown(b0, b1, RunTime, todo[i]);
        var provided, o := ResolveRunTarget(todo[i], dc);
        ForwardTrans(b0, b1, Now());
        ForwardDone(b1, Now(), RunTime, held);
        HandledForward(dc, b1, Now(), RunTime, allowIncomplete);
        if !o.Resolved? {
          return added, o;
        }
        if !halt {
          LedTrans(dc, b0, s0, b1, s1, Now(), Elems(seenFns), NOTHING);
        }
        if provided {
          added := added + 1;
          assert todo[i] in todo && Done(Now(), RunTime, todo[i]);
        }
      }
    }

    /** One turn of that loop; provided says that the call returned normally. */
    method ResolveRunTarget(target: Name, dc: DataCache) returns (provided: bool, r: Outcome)
      requires Valid(dc) && !dc.ignored(target) && target in runTargets
      modifies this
      ensures Valid(dc) && externalTargets == old(externalTargets)
      ensures Forward(old(Now()), Now())
      ensures buildTargets.Keys <= old(buildTargets).Keys + AllNames(dc, BuildTime)
      ensures runTargets.Keys <= old(runTargets).Keys + AllNames(dc, RunTime)
      ensures !halt ==> r.Resolved? && Led(dc, old(Now()), old(Elems(seenFns)), Now(), Elems(seenFns), NOTHING)
      ensures !r.Resolved? ==> r.NoProvider?
      ensures provided ==> Done(Now(), RunTime, target)
      ensures r.Resolved? && !halt ==> Handled(dc, Now(), RunTime, target, allowIncomplete)
      ensures !halt && !provided ==>
                buildTargets.Keys == old(buildTargets).Keys && runTargets.Keys == old(runTargets).Keys
    {
      hide Tidy, Forward, Recorded, AllNames, NoDuplicates, Settled, Grew, Dependees, Cascade, Led, Origin,
          EntriesKnown, PlainTasks, Taken, Follows;
      ghost var b1, s1 := Now(), Elems(seenFns);
      var o := AddRprovider(target, dc);
      ghost var b2 := Now();
      if !halt {
        LedKnown(dc, b1, s1, b2, Elems(seenFns), RunTime, target);
      }
      if o.Resolved? {
        return true, Resolved;
      }
      if o.NoProvider? {
        return false, o;
      }
      var fatal := RemoveRunTarget(target);
      GrewForward(b2, Now());
      ForwardTrans(b1, b2, Now());
      if fatal.Some? {
        return false, NoProvider(fatal.value);
      }
      if !halt {
        StillSteady(dc, b2, RunTime, target);
        LedTrans(dc, b1, s1, b2, Elems(seenFns), Now(), Elems(seenFns), NOTHING);
      }
      return false, Resolved;
    }

    /** One turn of the loop of AddUnresolved. */
    method ResolveRound(dc: DataCache, ghost names: set<Name>, ghost rnames: set<Name>) returns (added: nat, r: Outcome)
      requires Valid(dc)
      requires buildTargets.Keys + AllNames(dc, BuildTime) <= names && runTargets.Keys + AllNames(dc, RunTime) <= rnames
      modifies this
      ensures Valid(dc) && externalTargets == old(externalTargets)
      ensures Forward(old(Now()), Now())
      ensures buildTargets.Keys <= names && runTargets.Keys <= rnames
      ensures !r.Resolved? ==> r.NoProvider? && halt
      ensures !halt ==> Led(dc, old(Now()), old(Elems(seenFns)), Now(), Elems(seenFns), NOTHING)
      ensures added > 0 ==> OpenCount(Now(), names, rnames) < OpenCount(old(Now()), names, rnames)
      ensures r.Resolved? && !halt && added == 0 ==> AllResolved(dc, Now(), allowIncomplete)
    {
      hide Tidy, Forward, Recorded, AllNames, NoDuplicates, NoneLeft, Done, WellFormed, OpenCount, AllResolved,
          Handled, Elems, NoDup, Led, Origin, EntriesKnown, PlainTasks;
      ghost var b1, s1 := Now(), Elems(seenFns);
      var todo := Unresolved(BuildTime, dc);
      added, r := ResolveBuildTargets(todo, dc);
      ghost var b2, s2 := Now(), Elems(seenFns);
      OpenShrinks(b1, b2, names, rnames);
      if added > 0 {
        ghost var t :| t in todo && Done(b2, BuildTime, t);
        OpenDrops(b1, b2, names, rnames, BuildTime, t);
      }
      if !r.Resolved? {
        return;
      }
      var rtodo := Unresolved(RunTime, dc);
      var radded;
      radded, r := ResolveRunTargets(rtodo, dc);
      ghost var b3 := Now();
      ForwardTrans(b1, b2, b3);
      if !halt {
        LedTrans(dc, b1, s1, b2, s2, b3, Elems(seenFns), NOTHING);
      }
      OpenShrinks(b2, b3, names, rnames);
      if radded > 0 {
        ghost var t :| t in rtodo && Done(b3, RunTime, t);
        OpenDrops(b2, b3, names, rnames, RunTime, t);
      }
      added := added + radded;
      if r.Resolved? && !halt && added == 0 {
        NothingAdded(dc, b1, b2, b3, todo, rtodo, allowIncomplete);
      }
    }

    /** Resolve every dependency of every recipe taken in, directly or along the way. */
    method AddUnresolved(dc: DataCache) returns (r: Outcome)
      requires Valid(dc)
      modifies this
      ensures Valid(dc) && externalTargets == old(externalTargets)
      ensures Forward(old(Now()), Now())
      ensures !r.Resolved? ==> r.NoProvider? && halt
      ensures r.Resolved? && !halt ==> AllResolved(dc, Now(), allowIncomplete)
      ensures r.Resolved? && !halt ==> ClosedWorld(dc, Now(), Elems(seenFns), allowIncomplete)
      ensures !halt ==> Led(dc, old(Now()), old(Elems(seenFns)), Now(), Elems(seenFns), NOTHING)
    {
      hide Tidy, Forward, Recorded, AllNames, NoDuplicates, NoneLeft, Done, ClosedWorld, WellFormed, OpenCount,
          AllResolved, Handled, Elems, NoDup, Led, Origin, EntriesKnown, PlainTasks;
      ghost var names := buildTargets.Keys + AllNames(dc, BuildTime);
      ghost var rnames := runTargets.Keys + AllNames(dc, RunTime);
      ghost var b0, s0 := Now(), Elems(seenFns);
      ForwardRefl(b0);
      LedRefl(dc, b0, s0, NOTHING);
      while true
        invariant Valid(dc) && externalTargets == old(externalTargets)
        invariant Forward(b0, Now())
        invariant !halt ==> Led(dc, b0, s0, Now(), Elems(seenFns), NOTHING)
        invariant buildTargets.Keys <= names && runTargets.Keys <= rnames
        decreases OpenCount(Now(), names, rnames)
      {
        ghost var b1, s1 := Now(), Elems(seenFns);
        var added, o := ResolveRound(dc, names, rnames);
        ForwardTrans(b0, b1, Now());
        if !halt {
          LedTrans(dc, b0, s0, b1, s1, Now(), Elems(seenFns), NOTHING);
        }
        if !o.Resolved? {
          return o;
        }
        if added == 0 {
          break;
        }
      }
      if !halt {
        ResolvedIsClosed(dc, Needs(), Now(), Elems(seenFns), allowIncomplete);
      }
      r := Resolved;
    }
  }

  /**
   For one configuration: request each target, then resolve what they need. From empty
   bookkeeping this ends in a closed world in which every request is met or has failed, nothing is
   beyond what the requests lead to, and every target that has providers has all it should have.
   */
  method BuildTaskData(halt: bool, allowIncomplete: bool, targets: seq<Name>, dc: DataCache)
      returns (t: TaskData, r: Outcome)
    requires WellFormed(dc)
    ensures fresh(t) && t.Valid(dc)
    ensures !r.Resolved? ==> r.NoProvider? && halt
    ensures r.Resolved? ==> forall n :: n in targets ==> dc.ignored(n) || Done(t.Now(), BuildTime, n)
    ensures r.Resolved? ==> Elems(t.externalTargets) == Elems(targets)
    ensures r.Resolved? && !halt ==>
            AllResolved(dc, t.Now(), allowIncomplete) && ClosedWorld(dc, t.Now(), Elems(t.seenFns), allowIncomplete)
    ensures !halt && PlainTasks(dc) ==>
            Follows(dc, EMPTY, {}, t.Now(), Elems(t.seenFns), NOTHING.(build := Elems(targets)))
    ensures !halt && Single(dc) ==> Sourced(dc, t.Now())
  {
    hide Forward, Done, AllResolved, ClosedWorld, Recorded, Tidy, TaskData.NoDuplicates, Origin, EntriesKnown,
        PlainTasks, TaskData.Taken, Orphan, Follows, Led, Elems;
    ghost var need := NOTHING.(build := Elems(targets));
    t := EmptyTaskData(halt, allowIncomplete, dc);
    LedRefl(dc, t.Now(), Elems(t.seenFns), need);
    for i := 0 to |targets|
      invariant fresh(t) && t.Valid(dc) && t.halt == halt && t.allowIncomplete == allowIncomplete
      invariant forall n :: n in targets[..i] ==> dc.ignored(n) || Done(t.Now(), BuildTime, n)
      invariant Elems(t.externalTargets) == Elems(targets[..i])
      invariant !halt ==> Led(dc, EMPTY, {}, t.Now(), Elems(t.seenFns), need)
    {
      ghost var b, s := t.Now(), Elems(t.seenFns);
      r := t.AddProvider(targets[i], dc);
      if !r.Resolved? {
        return;
      }
      if !halt {
        InElems(targets, targets[i]);
        LedMore(dc, b, s, t.Now(), Elems(t.seenFns), NeedOf(BuildTime, targets[i]), need);
        LedTrans(dc, EMPTY, {}, b, s, t.Now(), Elems(t.seenFns), need);
      }
      AllDoneStill(targets[..i], dc, b, t.Now());
      assert targets[..i + 1] == targets[..i] + [targets[i]];
      ElemsPush(targets[..i], targets[i]);
    }
    assert targets[..|targets|] == targets;
    ghost var b, s := t.Now(), Elems(t.seenFns);
    r := t.AddUnresolved(dc);
    AllDoneStill(targets, dc, b, t.Now());
    if !halt {
      LedMore(dc, b, s, t.Now(), Elems(t.seenFns), NOTHING, need);
      LedTrans(dc, EMPTY, {}, b, s, t.Now(), Elems(t.seenFns), need);
      LedFromNothing(dc, t.Now(), Elems(t.seenFns), need);
    }
  }

  method EmptyTaskData(halt: bool, allowIncomplete: bool, dc: DataCache) returns (t: TaskData)
    requires WellFormed(dc)
    ensures fresh(t) && t.Valid(dc) && t.halt == halt && t.allowIncomplete == allowIncomplete && t.externalTargets == []
    ensures t.Now() == EMPTY && Elems(t.seenFns) == {} && Elems<Name>([]) == {}
  {
    t := new TaskData(halt, allowIncomplete);
    assert Elems(t.seenFns) == {};
    assert forall k :: Ids(t.Needs(), k) == map[] && Side(t.Now().listing, k) == map[];
  }

  lemma AllDoneStill(names: seq<Name>, dc: DataCache, b0: Books, b1: Books)
    requires Forward(b0, b1) && forall n :: n in names ==> dc.ignored(n) || Done(b0, BuildTime, n)
    ensures forall n :: n in names ==> dc.ignored(n) || Done(b1, BuildTime, n)
  {
    forall n | n in names ensures dc.ignored(n) || Done(b1, BuildTime, n) {
      ForwardDone(b0, b1, BuildTime, n);
    }
  }
}
