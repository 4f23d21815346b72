/** What resolving every dependency must leave behind, stated over snapshots of the bookkeeping. */
module ProviderResolution {
  import opened Collections
  import opened FailureCascade

  datatype TaskDeps = TaskDeps(name: string, parents: seq<string>, depends: seq<(Name, string)>,
      rdepends: seq<(Name, string)>)

  /** rdepends and rrecommends hold one list for each package of the recipe. */
  datatype RecipeDeps = RecipeDeps(tasks: seq<TaskDeps>, depends: seq<Name>, rdepends: seq<seq<Name>>,
      rrecommends: seq<seq<Name>>)

  /**
   What is known of the recipes. eligible and eligibleRun stand for the reordering filters
   of providers.py; eligibleRun also counts the preferred providers it found.
   */
  datatype DataCache = DataCache(
    recipes: map<Fn, RecipeDeps>,
    ignored: Name -> bool,
    provided: set<Name>,
    eligible: Name -> seq<Fn>,
    runProviders: Name -> seq<Fn>,
    eligibleRun: Name -> (seq<Fn>, nat))

  ghost predicate WellFormed(dc: DataCache) {
    forall n :: Elems(dc.eligible(n)) <= dc.recipes.Keys && Elems(dc.eligibleRun(n).0) <= dc.recipes.Keys
  }

  function Flatten(lists: seq<seq<Name>>): seq<Name> {
    if lists == [] then [] else lists[0] + Flatten(lists[1..])
  }

  /** What the recipe as a whole depends on. */
  function DepsOf(r: RecipeDeps, k: Kind): set<Name> {
    if k == BuildTime then Elems(r.depends) else Elems(Flatten(r.rdepends)) + Elems(Flatten(r.rrecommends))
  }

  function TaskDepsOf(t: TaskDeps, k: Kind): seq<(Name, string)> {
    if k == BuildTime then t.depends else t.rdepends
  }

  function Heads(deps: seq<(Name, string)>): set<Name> {
    set d | d in deps :: d.0
  }

  /** Every target name the recipe mentions, in its own dependencies or in those of a task. */
  function NamesOf(r: RecipeDeps, k: Kind): set<Name> {
    DepsOf(r, k) + (set t, n | t in r.tasks && n in Heads(TaskDepsOf(t, k)) :: n)
  }

  lemma {:induction false} InFlat(lists: seq<seq<Name>>, n: Name)
    ensures n in Flatten(lists) <==> exists l :: l in lists && n in l
  {
    if lists != [] {
      InFlat(lists[1..], n);
      assert lists == [lists[0]] + lists[1..];
    }
  }

  /** What a recipe needs: at build time its list, at run time what any of its packages depends on or recommends. */
  lemma NamesAre(r: RecipeDeps, n: Name)
    ensures n in DepsOf(r, BuildTime) <==> n in r.depends
    ensures n in DepsOf(r, RunTime) <==>
            (exists l :: l in r.rdepends && n in l) || exists l :: l in r.rrecommends && n in l
    ensures n in NamesOf(r, BuildTime) <==> n in r.depends || exists t, s :: t in r.tasks && (n, s) in t.depends
    ensures n in NamesOf(r, RunTime) <==>
            n in DepsOf(r, RunTime) || exists t, s :: t in r.tasks && (n, s) in t.rdepends
  {
    InFlat(r.rdepends, n);
    InFlat(r.rrecommends, n);
    InElems(Flatten(r.rdepends), n);
    InElems(Flatten(r.rrecommends), n);
    hide Flatten;
    forall deps: seq<(Name, string)> ensures n in Heads(deps) <==> exists s :: (n, s) in deps {
      if d :| d in deps && d.0 == n {
        assert (n, d.1) in deps;
      }
    }
    hide Heads;
    forall k ensures n in NamesOf(r, k) <==>
        n in DepsOf(r, k) || exists t, s :: t in r.tasks && (n, s) in TaskDepsOf(t, k) {
      if t :| t in r.tasks && n in Heads(TaskDepsOf(t, k)) {
        var s :| (n, s) in TaskDepsOf(t, k);
      }
    }
    assert forall t, s :: t in r.tasks && (n, s) in t.depends ==> (n, s) in TaskDepsOf(t, BuildTime);
    assert forall t, s :: t in r.tasks && (n, s) in t.rdepends ==> (n, s) in TaskDepsOf(t, RunTime);
  }

  // ---------- task entries ----------

  /** Parents that are tasks of the same recipe, as task identifiers. */
  function ParentIds(fn: Fn, tasks: seq<TaskDeps>, parents: seq<string>): seq<Tid> {
    if parents == [] then []
    else
      var rest := ParentIds(fn, tasks, parents[..|parents| - 1]);
      var p := parents[|parents| - 1];
      if exists u :: u in tasks && u.name == p then rest + [TidOf(fn, p)] else rest
  }

  /** The entries after those of the first n tasks have been written; a repeated name overwrites. */
  function WithEntries(entries: map<Tid, TaskEntry>, fn: Fn, tasks: seq<TaskDeps>, n: nat): map<Tid, TaskEntry>
    requires n <= |tasks|
  {
    if n == 0 then entries
    else
      var t := tasks[n - 1];
      WithEntries(entries, fn, tasks, n - 1)[TidOf(fn, t.name) :=
          TaskEntry(ParentIds(fn, tasks, t.parents), t.depends, t.rdepends)]
  }

  /** A task of the same recipe has that name. */
  ghost predicate IsTask(tasks: seq<TaskDeps>, p: string) {
    exists u :: u in tasks && u.name == p
  }

  lemma {:induction false} ParentsAre(fn: Fn, tasks: seq<TaskDeps>, parents: seq<string>, p: string)
    ensures TidOf(fn, p) in ParentIds(fn, tasks, parents) <==> p in parents && IsTask(tasks, p)
    ensures forall tid :: tid in ParentIds(fn, tasks, parents) ==> fn <= tid
  {
    if parents != [] {
      var front, last := parents[..|parents| - 1], parents[|parents| - 1];
      ParentsAre(fn, tasks, front, p);
      assert parents == front + [last];
      SameTask(fn, p, last);
    }
  }

  lemma SameTask(fn: Fn, a: string, b: string)
    ensures TidOf(fn, a) == TidOf(fn, b) <==> a == b
  {
    assert TidOf(fn, a)[|fn| + 1..] == a && TidOf(fn, b)[|fn| + 1..] == b;
  }

  /** What one task's entry holds: its own dependencies, and those of its parents that are tasks of the recipe. */
  ghost predicate EntryOf(e: TaskEntry, fn: Fn, tasks: seq<TaskDeps>, t: TaskDeps) {
    && e.idepends == t.depends && e.irdepends == t.rdepends
    && forall p :: TidOf(fn, p) in e.tdepends <==> p in t.parents && IsTask(tasks, p)
  }

  lemma EntryIs(fn: Fn, tasks: seq<TaskDeps>, t: TaskDeps)
    ensures EntryOf(TaskEntry(ParentIds(fn, tasks, t.parents), t.depends, t.rdepends), fn, tasks, t)
  {
    forall p ensures TidOf(fn, p) in ParentIds(fn, tasks, t.parents) <==> p in t.parents && IsTask(tasks, p) {
      ParentsAre(fn, tasks, t.parents, p);
    }
  }

  lemma {:induction false} WithEntriesAt(entries: map<Tid, TaskEntry>, fn: Fn, tasks: seq<TaskDeps>, n: nat, i: nat)
    requires i < n <= |tasks| && forall j, l :: 0 <= j < l < |tasks| ==> tasks[j].name != tasks[l].name
    ensures var e := WithEntries(entries, fn, tasks, n); var tid := TidOf(fn, tasks[i].name);
            tid in e && EntryOf(e[tid], fn, tasks, tasks[i])
  {
    hide EntryOf, ParentIds, TidOf;
    if i < n - 1 {
      WithEntriesAt(entries, fn, tasks, n - 1, i);
      SameTask(fn, tasks[i].name, tasks[n - 1].name);
    } else {
      EntryIs(fn, tasks, tasks[i]);
    }
  }

  /** No other entry changes. */
  lemma {:induction false} EntriesElsewhere(entries: map<Tid, TaskEntry>, fn: Fn, tasks: seq<TaskDeps>, n: nat)
    requires n <= |tasks|
    ensures var e := WithEntries(entries, fn, tasks, n);
            forall other :: (forall j :: 0 <= j < n ==> other != TidOf(fn, tasks[j].name)) ==>
              (other in e <==> other in entries) && (other in e ==> e[other] == entries[other])
  {
    if n > 0 {
      EntriesElsewhere(entries, fn, tasks, n - 1);
      hide ParentIds, TidOf;
    }
  }

  /** A recipe one of whose tasks names a target is among those the target's loss drags down. */
  lemma TaskNamesItsRecipe(g: Graph, entries: map<Tid, TaskEntry>, fn: Fn, tasks: seq<TaskDeps>, i: nat, k: Kind,
      target: Name)
    requires forall j, l :: 0 <= j < l < |tasks| ==> tasks[j].name != tasks[l].name
    requires i < |tasks| && ':' !in tasks[i].name && target in Heads(TaskDepsOf(tasks[i], k))
    requires g.entries == WithEntries(entries, fn, tasks, |tasks|)
    ensures fn in Dependees(g, k, target)
  {
    WithEntriesAt(entries, fn, tasks, |tasks|, i);
    TidFnInverts(fn, tasks[i].name);
    var deps := TaskDepsOf(tasks[i], k);
    var d :| d in deps && d.0 == target;
    var j :| 0 <= j < |deps| && deps[j] == d;
    TaskDependee(g, k, target, TidOf(fn, tasks[i].name), j);
  }

  ghost function AllNames(dc: DataCache, k: Kind): set<Name> {
    set fn, n | fn in dc.recipes && n in NamesOf(dc.recipes[fn], k) :: n
  }

  lemma NamesAreNames(dc: DataCache, k: Kind, fn: Fn)
    requires fn in dc.recipes
    ensures NamesOf(dc.recipes[fn], k) <= AllNames(dc, k)
  {
  }

  /** The target is failed, or has a provider. */
  predicate Done(b: Books, k: Kind, t: Name) {
    t in Lost(b, k) || (t in Side(b.listing, k) && Side(b.listing, k)[t] != [])
  }

  /** Nothing done is undone. */
  ghost predicate Forward(b0: Books, b1: Books) {
    && b0.failed <= b1.failed
    && (forall k :: Lost(b0, k) <= Lost(b1, k) && Side(b0.listing, k).Keys <= Side(b1.listing, k).Keys)
    && (forall k, t :: Done(b0, k, t) ==> Done(b1, k, t))
  }

  lemma GrewForward(b0: Books, b1: Books)
    requires Grew(b0, b1)
    ensures Forward(b0, b1)
    ensures b1.listing.build.Keys == b0.listing.build.Keys && b1.listing.run.Keys == b0.listing.run.Keys
  {
    forall k ensures GrewOn(k, b0, b1) {
    }
    forall k, t | Done(b0, k, t) ensures Done(b1, k, t) {
      assert GrewOn(k, b0, b1);
      if t !in Lost(b0, k) && Side(b1.listing, k)[t] == [] {
        assert t in Emptied(Side(b0.listing, k), Side(b1.listing, k));
      }
    }
  }

  lemma ForwardDone(b0: Books, b1: Books, k: Kind, t: Name)
    requires Forward(b0, b1)
    ensures b0.failed <= b1.failed && Lost(b0, k) <= Lost(b1, k)
    ensures Done(b0, k, t) ==> Done(b1, k, t)
  {
  }

  lemma ForwardLosses(b0: Books, b1: Books)
    requires Forward(b0, b1)
    ensures forall k :: Lost(b0, k) <= Lost(b1, k)
  {
  }

  lemma ForwardKnown(b0: Books, b1: Books, k: Kind, t: Name)
    requires Forward(b0, b1)
    ensures t in Side(b0.listing, k) ==> t in Side(b1.listing, k)
  {
    assert Side(b0.listing, k).Keys <= Side(b1.listing, k).Keys;
  }

  /** Target names not yet done. */
  ghost function Open(b: Books, k: Kind, names: set<Name>): set<Name> {
    set t | t in names && !Done(b, k, t)
  }

  ghost function OpenCount(b: Books, names: set<Name>, rnames: set<Name>): nat {
    |Open(b, BuildTime, names)| + |Open(b, RunTime, rnames)|
  }

  lemma OpenShrinks(b0: Books, b1: Books, names: set<Name>, rnames: set<Name>)
    requires Forward(b0, b1)
    ensures OpenCount(b1, names, rnames) <= OpenCount(b0, names, rnames)
  {
    CardMonotone(Open(b1, BuildTime, names), Open(b0, BuildTime, names));
    CardMonotone(Open(b1, RunTime, rnames), Open(b0, RunTime, rnames));
  }

  lemma OpenDrops(b0: Books, b1: Books, names: set<Name>, rnames: set<Name>, k: Kind, t: Name)
    requires Forward(b0, b1) && t in (if k == BuildTime then names else rnames)
    requires !Done(b0, k, t) && Done(b1, k, t)
    ensures OpenCount(b1, names, rnames) < OpenCount(b0, names, rnames)
  {
    CardMonotone(Open(b1, BuildTime, names), Open(b0, BuildTime, names));
    CardMonotone(Open(b1, RunTime, rnames), Open(b0, RunTime, rnames));
    var ns := if k == BuildTime then names else rnames;
    assert t in Open(b0, k, ns) && t !in Open(b1, k, ns);
    SmallerCard(Open(b1, k, ns), Open(b0, k, ns));
  }

  /**
   Every listed provider has been seen (or is in extra) and has not failed, and no seen and
   unfailed recipe depends on a target that is unknown or failed.
   */
  ghost predicate Tidy(g: Graph, b: Books, seen: set<Fn>, extra: set<Fn>) {
    && (forall k, t, p :: t in Side(b.listing, k) && p in Side(b.listing, k)[t] ==> p in seen + extra && p !in b.failed)
    && (forall k, fn, d :: fn in seen && fn !in b.failed && fn in Ids(g, k) && d in Ids(g, k)[fn]
          ==> d in Side(b.listing, k) && d !in Lost(b, k))
  }

  /** The providers listed after a cascade were listed before, and have not failed. */
  lemma ListedAfterCascade(k: Kind, g: Graph, b0: Books, b1: Books, good: set<Fn>, d: set<Name>)
    requires SettledOn(k, g, b0, b1, d)
    requires forall t, p :: t in Side(b0.listing, k) && p in Side(b0.listing, k)[t] ==> p in good && p !in b0.failed
    ensures Side(b1.listing, k).Keys == Side(b0.listing, k).Keys
    ensures forall t, p :: t in Side(b1.listing, k) && p in Side(b1.listing, k)[t] ==> p in good && p !in b1.failed
  {
    hide Without, Dependees, Emptied;
    var m0, m1 := Side(b0.listing, k), Side(b1.listing, k);
    forall t, p | t in m1 && p in m1[t] ensures p in good && p !in b1.failed {
      WithoutElems(m0[t], b1.failed - b0.failed);
      assert p in m0[t];
    }
  }

  /** A recipe that has not failed needs none of the targets lost in a cascade. */
  lemma NeededAfterCascade(k: Kind, g: Graph, b0: Books, b1: Books, d: set<Name>, fn: Fn, n: Name)
    requires SettledOn(k, g, b0, b1, d) && n !in Lost(b0, k)
    requires fn !in b1.failed && fn in Ids(g, k) && n in Ids(g, k)[fn]
    ensures n !in Lost(b1, k)
  {
    hide Without, Emptied, DropAll;
    assert fn in Dependees(g, k, n);
  }

  /** A finished cascade keeps the books tidy. */
  lemma TidyAfterCascade(g: Graph, b0: Books, b1: Books, seen: set<Fn>, extra: set<Fn>, d: set<Name>, r: set<Name>)
    requires Tidy(g, b0, seen, extra) && Settled(g, b0, b1, d, r)
    ensures Tidy(g, b1, seen, extra)
  {
    hide SettledOn;
    forall k
      ensures forall t, p :: t in Side(b1.listing, k) && p in Side(b1.listing, k)[t]
                ==> p in seen + extra && p !in b1.failed
      ensures forall fn, n :: fn in seen && fn !in b1.failed && fn in Ids(g, k) && n in Ids(g, k)[fn]
                ==> n in Side(b1.listing, k) && n !in Lost(b1, k)
    {
      var x := if k == BuildTime then d else r;
      ListedAfterCascade(k, g, b0, b1, seen + extra, x);
      forall fn, n | fn in seen && fn !in b1.failed && fn in Ids(g, k) && n in Ids(g, k)[fn]
        ensures n in Side(b1.listing, k) && n !in Lost(b1, k)
      {
        NeededAfterCascade(k, g, b0, b1, x, fn, n);
      }
    }
  }

  /** No recipe that could still provide the build target is left. */
  ghost predicate NoneLeft(dc: DataCache, failed: set<Fn>, item: Name) {
    item !in dc.provided || Elems(dc.eligible(item)) <= failed
  }

  /** The target has no provider and cannot be given one; an unheard-of name is refused even with providers. */
  ghost predicate Orphan(dc: DataCache, b: Books, item: Name) {
    item !in dc.provided || (ListOf(b, BuildTime, item) == [] && Elems(dc.eligible(item)) <= b.failed)
  }

  ghost predicate RunOrphan(dc: DataCache, b: Books, item: Name) {
    && ListOf(b, RunTime, item) == []
    && (dc.runProviders(item) == [] || Elems(dc.eligibleRun(item).0) <= b.failed)
  }

  /** The target needs no further attention. */
  ghost predicate Handled(dc: DataCache, b: Books, k: Kind, t: Name, allowIncomplete: bool) {
    dc.ignored(t) || Done(b, k, t) || (k == BuildTime && allowIncomplete && NoneLeft(dc, b.failed, t))
  }

  lemma HandledForward(dc: DataCache, b0: Books, b1: Books, k: Kind, allowIncomplete: bool)
    requires Forward(b0, b1)
    ensures forall t :: Handled(dc, b0, k, t, allowIncomplete) ==> Handled(dc, b1, k, t, allowIncomplete)
  {
  }

  /**
   Everything known by name is ignored, failed or provided; with allowIncomplete a build target may
   also have no provider left.
   */
  ghost predicate AllResolved(dc: DataCache, b: Books, allowIncomplete: bool) {
    forall k, t :: t in Side(b.listing, k) ==> Handled(dc, b, k, t, allowIncomplete)
  }

  /** A round in which nothing could be added leaves nothing unhandled. */
  lemma NothingAdded(dc: DataCache, b1: Books, b2: Books, b3: Books, todo: seq<Name>, rtodo: seq<Name>,
      allowIncomplete: bool)
    requires Forward(b1, b2) && Forward(b2, b3)
    requires forall k :: Side(b3.listing, k).Keys == Side(b2.listing, k).Keys == Side(b1.listing, k).Keys
    requires forall t :: t in b1.listing.build && !dc.ignored(t) && !Done(b1, BuildTime, t) ==> t in todo
    requires forall t :: t in b2.listing.run && !dc.ignored(t) && !Done(b2, RunTime, t) ==> t in rtodo
    requires forall t :: t in todo ==> Handled(dc, b2, BuildTime, t, allowIncomplete)
    requires forall t :: t in rtodo ==> Handled(dc, b3, RunTime, t, allowIncomplete)
    ensures AllResolved(dc, b3, allowIncomplete)
  {
    HandledForward(dc, b1, b2, BuildTime, allowIncomplete);
    HandledForward(dc, b2, b3, BuildTime, allowIncomplete);
    HandledForward(dc, b2, b3, RunTime, allowIncomplete);
    forall k, t | t in Side(b3.listing, k) ensures Handled(dc, b3, k, t, allowIncomplete) {
      if k == BuildTime {
        assert t in b1.listing.build;
        assert Handled(dc, b2, BuildTime, t, allowIncomplete);
      } else {
        assert t in b2.listing.run;
      }
    }
  }

  /** The dependency is ignored, or has a provider and every provider listed for it is itself being built. */
  ghost predicate Satisfied(dc: DataCache, b: Books, seen: set<Fn>, k: Kind, d: Name) {
    || dc.ignored(d)
    || (&& d in Side(b.listing, k) && Side(b.listing, k)[d] != []
        && forall p :: p in Side(b.listing, k)[d] ==> p in seen && p !in b.failed)
  }

  /** Every recipe that was taken in and has not failed has all its dependencies satisfied. */
  ghost predicate ClosedWorld(dc: DataCache, b: Books, seen: set<Fn>, allowIncomplete: bool) {
    forall k, fn, d :: fn in seen && fn !in b.failed && fn in dc.recipes && d in DepsOf(dc.recipes[fn], k) ==>
      Satisfied(dc, b, seen, k, d) || (k == BuildTime && allowIncomplete && NoneLeft(dc, b.failed, d))
  }

  /** depids and rdepids record what the data cache says, for exactly the recipes seen. */
  ghost predicate Recorded(dc: DataCache, g: Graph, seen: set<Fn>) {
    && seen <= dc.recipes.Keys
    && (forall k :: Ids(g, k).Keys == seen)
    && (forall k, fn :: fn in seen ==> Elems(Ids(g, k)[fn]) == DepsOf(dc.recipes[fn], k))
  }

  lemma ResolvedIsClosed(dc: DataCache, g: Graph, b: Books, seen: set<Fn>, allowIncomplete: bool)
    requires Recorded(dc, g, seen) && Tidy(g, b, seen, {}) && AllResolved(dc, b, allowIncomplete)
    ensures ClosedWorld(dc, b, seen, allowIncomplete)
  {
    forall k, fn, d | fn in seen && fn !in b.failed && fn in dc.recipes && d in DepsOf(dc.recipes[fn], k)
      ensures Satisfied(dc, b, seen, k, d) || (k == BuildTime && allowIncomplete && NoneLeft(dc, b.failed, d))
    {
      assert d in Elems(Ids(g, k)[fn]);
      assert d in Side(b.listing, k) && d !in Lost(b, k);
      assert Handled(dc, b, k, d, allowIncomplete);
      forall p | p in Side(b.listing, k)[d] ensures p in seen && p !in b.failed {
        assert p in seen + {};
      }
    }
  }

  /** Target names were added, with no provider yet; nothing else changed. */
  ghost predicate Widened(b0: Books, b1: Books) {
    && b1.failed == b0.failed && b1.failedDeps == b0.failedDeps && b1.failedRdeps == b0.failedRdeps
    && WidenedOn(b0.listing.build, b1.listing.build) && WidenedOn(b0.listing.run, b1.listing.run)
  }

  ghost predicate WidenedOn(m0: map<Name, seq<Fn>>, m1: map<Name, seq<Fn>>) {
    && m0.Keys <= m1.Keys
    && (forall t :: t in m0 ==> m1[t] == m0[t])
    && (forall t :: t in m1 && t !in m0 ==> m1[t] == [])
  }

  lemma WidenedRefl(b: Books)
    ensures Widened(b, b)
  {
  }

  lemma WidenedTrans(b0: Books, b1: Books, b2: Books)
    requires Widened(b0, b1) && Widened(b1, b2)
    ensures Widened(b0, b2)
  {
  }

  lemma WidenedForward(b0: Books, b1: Books)
    requires Widened(b0, b1)
    ensures Forward(b0, b1)
  {
    forall k ensures WidenedOn(Side(b0.listing, k), Side(b1.listing, k)) && Lost(b1, k) == Lost(b0, k) {
    }
  }

  lemma WidenedTidy(g: Graph, b0: Books, b1: Books, seen: set<Fn>, extra: set<Fn>)
    requires Widened(b0, b1) && Tidy(g, b0, seen, extra)
    ensures Tidy(g, b1, seen, extra)
  {
    forall k ensures WidenedOn(Side(b0.listing, k), Side(b1.listing, k)) && Lost(b1, k) == Lost(b0, k) {
    }
  }

  lemma ForwardTrans(b0: Books, b1: Books, b2: Books)
    requires Forward(b0, b1) && Forward(b1, b2)
    ensures Forward(b0, b2)
  {
    forall k ensures Lost(b0, k) <= Lost(b2, k) && Side(b0.listing, k).Keys <= Side(b2.listing, k).Keys {
      assert Lost(b0, k) <= Lost(b1, k) && Side(b0.listing, k).Keys <= Side(b1.listing, k).Keys;
    }
    forall k, t | Done(b0, k, t) ensures Done(b2, k, t) {
      assert Done(b1, k, t);
    }
  }

  lemma ForwardRefl(b: Books)
    ensures Forward(b, b)
  {
  }

  lemma SeenIsNotExtra(g: Graph, b: Books, seen: set<Fn>, fn: Fn)
    requires fn in seen
    ensures Tidy(g, b, seen, {fn}) <==> Tidy(g, b, seen, {})
  {
    assert seen + {fn} == seen + {};
  }

  lemma TaskNames(r: RecipeDeps)
    ensures DepsOf(r, BuildTime) <= NamesOf(r, BuildTime) && DepsOf(r, RunTime) <= NamesOf(r, RunTime)
    ensures forall t :: t in r.tasks ==>
            Heads(t.depends) <= NamesOf(r, BuildTime) && Heads(t.rdepends) <= NamesOf(r, RunTime)
  {
    forall t | t in r.tasks
      ensures Heads(t.depends) <= NamesOf(r, BuildTime) && Heads(t.rdepends) <= NamesOf(r, RunTime)
    {
      assert t.depends == TaskDepsOf(t, BuildTime) && t.rdepends == TaskDepsOf(t, RunTime);
    }
  }

  /** g records for the recipes of seen what g0 did. */
  ghost predicate SameIds(g0: Graph, g: Graph, seen: set<Fn>) {
    forall k, f :: f in seen && f in Ids(g, k) ==> f in Ids(g0, k) && Ids(g, k)[f] == Ids(g0, k)[f]
  }

  /** A recipe whose dependencies were recorded, and found to be unfailed, joins the seen ones. */
  lemma TidyJoin(g0: Graph, g: Graph, b0: Books, b: Books, seen: set<Fn>, fn: Fn)
    requires Tidy(g0, b0, seen, {fn}) && SameIds(g0, g, seen) && Widened(b0, b)
    requires forall k :: fn in Ids(g, k) && Elems(Ids(g, k)[fn]) <= Side(b.listing, k).Keys
    requires forall k :: fn in Ids(g, k) && forall d :: d in Ids(g, k)[fn] ==> d !in Lost(b, k)
    ensures Tidy(g, b, seen + {fn}, {})
  {
    WidenedTidy(g0, b0, b, seen, {fn});
    forall k, f, d | f in seen + {fn} && f !in b.failed && f in Ids(g, k) && d in Ids(g, k)[f]
      ensures d in Side(b.listing, k) && d !in Lost(b, k)
    {
      if f in seen {
        assert f in Ids(g0, k);
      } else {
        assert d in Elems(Ids(g, k)[fn]);
      }
    }
  }

  /** The other case: the recipe failed at once. */
  lemma TidyJoinFailed(g0: Graph, g: Graph, b0: Books, b1: Books, b2: Books, seen: set<Fn>, fn: Fn)
    requires Tidy(g0, b0, seen, {fn}) && SameIds(g0, g, seen) && Widened(b0, b1)
    requires Settled(g, b1, b2, {}, {}) && fn in b2.failed
    ensures Tidy(g, b2, seen + {fn}, {})
  {
    hide Tidy, Settled, SameIds, Widened;
    WidenedTidy(g0, b0, b1, seen, {fn});
    TidySameIds(g0, g, b1, seen, {fn});
    TidyAfterCascade(g, b1, b2, seen, {fn}, {}, {});
    TidyFailedJoins(g, b2, seen, fn);
  }

  lemma TidySameIds(g0: Graph, g: Graph, b: Books, seen: set<Fn>, extra: set<Fn>)
    requires Tidy(g0, b, seen, extra) && SameIds(g0, g, seen)
    ensures Tidy(g, b, seen, extra)
  {
    forall k, f, d | f in seen && f !in b.failed && f in Ids(g, k) && d in Ids(g, k)[f]
      ensures d in Side(b.listing, k) && d !in Lost(b, k)
    {
      assert f in Ids(g0, k);
    }
  }

  lemma TidyFailedJoins(g: Graph, b: Books, seen: set<Fn>, fn: Fn)
    requires Tidy(g, b, seen, {fn}) && fn in b.failed
    ensures Tidy(g, b, seen + {fn}, {})
  {
    assert seen + {fn} + {} == seen + {fn};
  }

  lemma RecordedUnseen(dc: DataCache, g: Graph, seen: set<Fn>, fn: Fn)
    requires Recorded(dc, g, seen) && fn !in seen
    ensures fn !in g.depIds && fn !in g.rdepIds
    ensures forall k, f :: f in seen ==> f in Ids(g, k)
  {
    assert Ids(g, BuildTime).Keys == seen && Ids(g, RunTime).Keys == seen;
  }

  lemma RecordedFor(dc: DataCache, g: Graph, seen: set<Fn>, fn: Fn)
    requires Recorded(dc, g, seen) && fn in seen
    ensures fn in g.depIds && fn in g.rdepIds && fn in dc.recipes
    ensures Elems(g.depIds[fn]) == DepsOf(dc.recipes[fn], BuildTime)
    ensures Elems(g.rdepIds[fn]) == DepsOf(dc.recipes[fn], RunTime)
  {
    assert Ids(g, BuildTime).Keys == seen && Ids(g, RunTime).Keys == seen;
    assert fn in Ids(g, BuildTime) && fn in Ids(g, RunTime);
  }

  lemma RecordedJoin(dc: DataCache, g0: Graph, g: Graph, seen: set<Fn>, fn: Fn)
    requires Recorded(dc, g0, seen) && fn in dc.recipes && fn !in seen
    requires fn in g.depIds && g.depIds == g0.depIds[fn := g.depIds[fn]]
    requires fn in g.rdepIds && g.rdepIds == g0.rdepIds[fn := g.rdepIds[fn]]
    requires Elems(g.depIds[fn]) == DepsOf(dc.recipes[fn], BuildTime)
    requires Elems(g.rdepIds[fn]) == DepsOf(dc.recipes[fn], RunTime)
    ensures Recorded(dc, g, seen + {fn}) && SameIds(g0, g, seen)
  {
    forall k
      ensures Ids(g, k).Keys == seen + {fn}
      ensures forall f :: f in seen ==> Ids(g, k)[f] == Ids(g0, k)[f]
      ensures Elems(Ids(g, k)[fn]) == DepsOf(dc.recipes[fn], k)
    {
      assert Ids(g0, k).Keys == seen;
    }
  }

  /** fn was added to the list of one target, at the end, unless it was there already. */
  ghost predicate Listed(b0: Books, b1: Books, k: Kind, item: Name, fn: Fn) {
    var m0 := Side(b0.listing, k);
    && b1.failed == b0.failed && b1.failedDeps == b0.failedDeps && b1.failedRdeps == b0.failedRdeps
    && Side(b1.listing, Other(k)) == Side(b0.listing, Other(k))
    && Side(b1.listing, k) == m0[item :=
         if item !in m0 then [fn] else if fn in m0[item] then m0[item] else m0[item] + [fn]]
  }

  lemma ListedForward(b0: Books, b1: Books, k: Kind, item: Name, fn: Fn)
    requires Listed(b0, b1, k, item, fn)
    ensures Forward(b0, b1) && Done(b1, k, item)
    ensures Side(b1.listing, k).Keys == Side(b0.listing, k).Keys + {item}
    ensures Side(b1.listing, Other(k)) == Side(b0.listing, Other(k))
  {
    forall j
      ensures Lost(b0, j) == Lost(b1, j) && Side(b0.listing, j).Keys <= Side(b1.listing, j).Keys
      ensures forall t :: Done(b0, j, t) ==> Done(b1, j, t)
    {
      assert j == k || j == Other(k);
    }
  }

  lemma ListedTidy(g: Graph, b0: Books, b1: Books, seen: set<Fn>, fn: Fn, k: Kind, item: Name)
    requires Tidy(g, b0, seen, {}) && fn !in b0.failed
    requires Listed(b0, b1, k, item, fn)
    ensures Tidy(g, b1, seen, {fn})
  {
    ListedForward(b0, b1, k, item, fn);
    forall j, t, p | t in Side(b1.listing, j) && p in Side(b1.listing, j)[t]
      ensures p in seen + {fn} && p !in b1.failed
    {
      var m0 := Side(b0.listing, j);
      if j == k && t == item && p == fn {
      } else {
        assert j == k || j == Other(k);
        assert t in m0 && p in m0[t];
        assert p in seen + {};
      }
    }
    forall j, f, d | f in seen && f !in b1.failed && f in Ids(g, j) && d in Ids(g, j)[f]
      ensures d in Side(b1.listing, j) && d !in Lost(b1, j)
    {
      assert d in Side(b0.listing, j) && d !in Lost(b0, j);
      assert j == k || j == Other(k);
    }
  }

  // ---------- which recipes a target is given ----------

  ghost function ListOf(b: Books, k: Kind, t: Name): seq<Fn> {
    if t in Side(b.listing, k) then Side(b.listing, k)[t] else []
  }

  /** The lists of the targets but one have lost exactly what has failed since; new targets have no provider. */
  ghost predicate KeptBut(b0: Books, b1: Books, but: (Kind, Name)) {
    && b0.failed <= b1.failed
    && forall k, t :: (k, t) != but ==> ListOf(b1, k, t) == Without(ListOf(b0, k, t), b1.failed - b0.failed)
  }

  /** All lists have. */
  ghost predicate Kept(b0: Books, b1: Books) {
    b0.failed <= b1.failed && forall k, t :: ListOf(b1, k, t) == Without(ListOf(b0, k, t), b1.failed - b0.failed)
  }

  lemma KeptRefl(b: Books)
    ensures Kept(b, b)
  {
    forall k, t ensures Without(ListOf(b, k, t), b.failed - b.failed) == ListOf(b, k, t) {
      WithoutNone(ListOf(b, k, t), b.failed - b.failed);
    }
  }

  lemma KeptTrans(b0: Books, b1: Books, b2: Books, but: (Kind, Name))
    requires KeptBut(b0, b1, but) && KeptBut(b1, b2, but)
    ensures KeptBut(b0, b2, but)
  {
    forall k, t | (k, t) != but ensures ListOf(b2, k, t) == Without(ListOf(b0, k, t), b2.failed - b0.failed) {
      WithoutTwice(ListOf(b0, k, t), b1.failed - b0.failed, b2.failed - b1.failed);
      assert b1.failed - b0.failed + (b2.failed - b1.failed) == b2.failed - b0.failed;
    }
  }

  lemma KeptThrough(b0: Books, b1: Books, b2: Books)
    requires Kept(b0, b1) && Kept(b1, b2)
    ensures Kept(b0, b2)
  {
    forall k, t ensures ListOf(b2, k, t) == Without(ListOf(b0, k, t), b2.failed - b0.failed) {
      WithoutTwice(ListOf(b0, k, t), b1.failed - b0.failed, b2.failed - b1.failed);
      assert b1.failed - b0.failed + (b2.failed - b1.failed) == b2.failed - b0.failed;
    }
  }

  lemma WidenedKept(b0: Books, b1: Books)
    requires Widened(b0, b1)
    ensures Kept(b0, b1)
  {
    forall k, t ensures ListOf(b1, k, t) == Without(ListOf(b0, k, t), b1.failed - b0.failed) {
      assert WidenedOn(Side(b0.listing, k), Side(b1.listing, k));
      WithoutNone(ListOf(b0, k, t), b1.failed - b0.failed);
    }
  }

  lemma SettledKept(g: Graph, b0: Books, b1: Books, d: set<Name>, r: set<Name>)
    requires Settled(g, b0, b1, d, r)
    ensures Kept(b0, b1)
  {
    forall k, t ensures ListOf(b1, k, t) == Without(ListOf(b0, k, t), b1.failed - b0.failed) {
      assert SettledOn(k, g, b0, b1, if k == BuildTime then d else r);
      WithoutElems(ListOf(b0, k, t), b1.failed - b0.failed);
    }
  }

  lemma ListedKept(b0: Books, b1: Books, k: Kind, item: Name, fn: Fn)
    requires Listed(b0, b1, k, item, fn)
    ensures KeptBut(b0, b1, (k, item))
    ensures ListOf(b1, k, item) == if fn in ListOf(b0, k, item) then ListOf(b0, k, item) else ListOf(b0, k, item) + [fn]
  {
    forall j, t | (j, t) != (k, item) ensures ListOf(b1, j, t) == Without(ListOf(b0, j, t), b1.failed - b0.failed) {
      assert j == k || j == Other(k);
      WithoutNone(ListOf(b0, j, t), b1.failed - b0.failed);
    }
  }

  /** One more recipe of the list has been dealt with. */
  lemma ChosenPush(fns: seq<Fn>, i: nat, was: set<Fn>, now: set<Fn>)
    requires i < |fns| && NoDup(fns) && was <= now && fns[i] !in was
    ensures fns[i] !in Without(fns[..i], was)
    ensures Without(Without(fns[..i], was) + [fns[i]], now - was) == Without(fns[..i + 1], now)
  {
    WithoutElems(fns[..i], was);
    assert fns[i] !in fns[..i];
    assert fns[..i + 1] == fns[..i] + [fns[i]];
    WithoutPush(fns[..i], fns[i], was);
    assert Without(fns[..i + 1], was) == Without(fns[..i], was) + [fns[i]];
    WithoutTwice(fns[..i + 1], was, now - was);
    assert was + (now - was) == now;
  }

  /** The first i recipes of the list have been dealt with: those that have not failed are on the target's list. */
  ghost predicate Chosen(b: Books, k: Kind, item: Name, fns: seq<Fn>, i: nat)
    requires i <= |fns|
  {
    ListOf(b, k, item) == Without(fns[..i], b.failed)
  }

  lemma ChosenStep(b0: Books, b1: Books, b2: Books, b3: Books, k: Kind, item: Name, fns: seq<Fn>, i: nat)
    requires i < |fns| && fns[i] !in b1.failed
    requires KeptBut(b0, b1, (k, item)) && Listed(b1, b2, k, item, fns[i]) && Kept(b2, b3)
    ensures KeptBut(b0, b3, (k, item))
    ensures NoDup(fns) && Chosen(b1, k, item, fns, i) ==> Chosen(b3, k, item, fns, i + 1)
  {
    ListedKept(b1, b2, k, item, fns[i]);
    hide Listed, ListOf;
    KeptTrans(b0, b1, b2, (k, item));
    KeptTrans(b0, b2, b3, (k, item));
    assert b2.failed == b1.failed by {
      ListedFailed(b1, b2, k, item, fns[i]);
    }
    if NoDup(fns) && Chosen(b1, k, item, fns, i) {
      ChosenPush(fns, i, b1.failed, b3.failed);
    }
  }

  lemma ListedFailed(b0: Books, b1: Books, k: Kind, item: Name, fn: Fn)
    requires Listed(b0, b1, k, item, fn)
    ensures b1.failed == b0.failed
  {
  }

  lemma ChosenSkip(b: Books, k: Kind, item: Name, fns: seq<Fn>, i: nat)
    requires i < |fns| && fns[i] in b.failed && Chosen(b, k, item, fns, i)
    ensures Chosen(b, k, item, fns, i + 1)
  {
    assert fns[..i + 1] == fns[..i] + [fns[i]];
    WithoutPush(fns[..i], fns[i], b.failed);
  }

  lemma ChosenStart(b: Books, k: Kind, item: Name, fns: seq<Fn>)
    ensures KeptBut(b, b, (k, item)) && (ListOf(b, k, item) == [] ==> Chosen(b, k, item, fns, 0))
  {
    KeptRefl(b);
    WithoutElems([], b.failed);
  }

  /** Recipes that had failed before were passed over from the start. */
  lemma ChosenOfAll(b0: Books, b1: Books, k: Kind, item: Name, all: seq<Fn>, fns: seq<Fn>)
    requires b0.failed <= b1.failed && fns == Without(all, b0.failed) && Chosen(b1, k, item, fns, |fns|)
    ensures ListOf(b1, k, item) == Without(all, b1.failed)
  {
    assert fns[..|fns|] == fns;
    WithoutTwice(all, b0.failed, b1.failed);
    assert b0.failed + b1.failed == b1.failed;
  }
}
