/** How far resolving may go: nothing is taken in, made known or failed without need. */
module ResolutionLimits {
  import opened Collections
  import opened FailureCascade
  import opened ProviderResolution

  /** The recipes that may fail, those that may be taken in, and the targets that may become known. */
  datatype Limits = Limits(failed: set<Fn>, seen: set<Fn>, build: set<Name>, run: set<Name>) {
    function Names(k: Kind): set<Name> {
      if k == BuildTime then build else run
    }
  }

  /** The recipes the filters leave for a target. */
  function Candidates(dc: DataCache, k: Kind, t: Name): seq<Fn> {
    if k == BuildTime then dc.eligible(t) else dc.eligibleRun(t).0
  }

  /** There is no recipe for the target, or one of those there are may fail. */
  ghost predicate Shaky(dc: DataCache, failed: set<Fn>, k: Kind, t: Name) {
    || (k == BuildTime && t !in dc.provided)
    || (k == RunTime && (dc.runProviders(t) == [] || dc.eligibleRun(t).1 > 1))
    || Candidates(dc, k, t) == []
    || exists p :: p in Candidates(dc, k, t) && p in failed
  }

  ghost predicate MayBeLost(dc: DataCache, w: Limits, k: Kind, t: Name) {
    !dc.ignored(t) && Shaky(dc, w.failed, k, t)
  }

  /** Limits that leave room for whatever follows from what is within them. */
  ghost predicate Consistent(dc: DataCache, w: Limits) {
    && (forall k, t, p :: t in w.Names(k) && !dc.ignored(t) && p in Candidates(dc, k, t) ==> p in w.seen)
    && (forall k, fn :: fn in w.seen && fn in dc.recipes ==> NamesOf(dc.recipes[fn], k) <= w.Names(k))
    && (forall k, fn, t ::
          fn in w.seen && fn in dc.recipes && t in NamesOf(dc.recipes[fn], k) && MayBeLost(dc, w, k, t) ==>
          fn in w.failed)
  }

  ghost predicate Within(dc: DataCache, b: Books, seen: set<Fn>, w: Limits) {
    && b.failed <= w.failed && seen <= w.seen
    && (forall k :: Side(b.listing, k).Keys <= w.Names(k))
    && (forall k, t :: t in Lost(b, k) ==> MayBeLost(dc, w, k, t))
  }

  ghost predicate Allows(w: Limits, need: Limits) {
    need.seen <= w.seen && need.build <= w.build && need.run <= w.run
  }

  /** Within all limits that leave room for what is needed, one state led to nothing beyond them. */
  ghost predicate Follows(dc: DataCache, b0: Books, seen0: set<Fn>, b1: Books, seen1: set<Fn>, need: Limits) {
    forall w {:trigger Within(dc, b0, seen0, w)} ::
      Consistent(dc, w) && Allows(w, need) && Within(dc, b0, seen0, w) ==>
      Within(dc, b1, seen1, w)
  }

  const NOTHING := Limits({}, {}, {}, {})

  lemma FollowsRefl(dc: DataCache, b: Books, seen: set<Fn>, need: Limits)
    ensures Follows(dc, b, seen, b, seen, need)
  {
  }

  lemma FollowsTrans(dc: DataCache, b0: Books, s0: set<Fn>, b1: Books, s1: set<Fn>, b2: Books, s2: set<Fn>,
      need: Limits)
    requires Follows(dc, b0, s0, b1, s1, need) && Follows(dc, b1, s1, b2, s2, need)
    ensures Follows(dc, b0, s0, b2, s2, need)
  {
  }

  /** What needs less follows where more is needed. */
  lemma FollowsMore(dc: DataCache, b0: Books, s0: set<Fn>, b1: Books, s1: set<Fn>, need: Limits, more: Limits)
    requires Follows(dc, b0, s0, b1, s1, need)
    requires Allows(more, need)
    ensures Follows(dc, b0, s0, b1, s1, more)
  {
  }

  // ---------- what is listed and recorded ----------

  /** Every listed provider is one of the target's candidates, and ignored targets have none. */
  ghost predicate Origin(dc: DataCache, b: Books) {
    forall k, t, p :: p in ListOf(b, k, t) ==> !dc.ignored(t) && p in Candidates(dc, k, t)
  }

  /** The entries are those of tasks of seen recipes, and name what these name. */
  ghost predicate EntriesKnown(dc: DataCache, g: Graph, seen: set<Fn>) {
    forall tid, k :: tid in g.entries ==>
      TidFn(tid) in seen && TidFn(tid) in dc.recipes &&
      Heads(TaskIds(g.entries[tid], k)) <= NamesOf(dc.recipes[TidFn(tid)], k)
  }

  /** Task names hold no colon, so that identifiers lead back to their recipes. */
  ghost predicate PlainTasks(dc: DataCache) {
    forall fn, t :: fn in dc.recipes && t in dc.recipes[fn].tasks ==> ':' !in t.name
  }

  lemma OriginKept(dc: DataCache, b0: Books, b1: Books)
    requires Origin(dc, b0) && Kept(b0, b1)
    ensures Origin(dc, b1)
  {
    forall k, t, p | p in ListOf(b1, k, t) ensures !dc.ignored(t) && p in Candidates(dc, k, t) {
      WithoutElems(ListOf(b0, k, t), b1.failed - b0.failed);
    }
  }

  lemma OriginListed(dc: DataCache, b0: Books, b1: Books, k: Kind, item: Name, fn: Fn)
    requires Origin(dc, b0) && Listed(b0, b1, k, item, fn) && !dc.ignored(item) && fn in Candidates(dc, k, item)
    ensures Origin(dc, b1)
  {
    ListedKept(b0, b1, k, item, fn);
    hide Listed;
    forall j, t, p | p in ListOf(b1, j, t) ensures !dc.ignored(t) && p in Candidates(dc, j, t) {
      if (j, t) != (k, item) {
        WithoutElems(ListOf(b0, j, t), b1.failed - b0.failed);
      }
    }
  }

  lemma {:induction false} EntriesJoin(dc: DataCache, g0: Graph, g: Graph, seen: set<Fn>, fn: Fn, n: nat)
    requires EntriesKnown(dc, g0, seen) && PlainTasks(dc) && fn in dc.recipes && n <= |dc.recipes[fn].tasks|
    requires g.entries == WithEntries(g0.entries, fn, dc.recipes[fn].tasks, n)
    ensures EntriesKnown(dc, g, seen + {fn})
    decreases n
  {
    if n > 0 {
      var tasks := dc.recipes[fn].tasks;
      var t := tasks[n - 1];
      EntriesJoin(dc, g0, g.(entries := WithEntries(g0.entries, fn, tasks, n - 1)), seen, fn, n - 1);
      assert t in tasks;
      TidFnInverts(fn, t.name);
      hide TidFn, TidOf;
      forall k ensures Heads(TaskDepsOf(t, k)) <= NamesOf(dc.recipes[fn], k) {
      }
    }
  }

  // ---------- a loss stays within the limits ----------

  lemma DependeesMayFail(dc: DataCache, g: Graph, seen: set<Fn>, w: Limits, k: Kind, t: Name)
    requires Recorded(dc, g, seen) && EntriesKnown(dc, g, seen) && Consistent(dc, w) && seen <= w.seen
    requires MayBeLost(dc, w, k, t)
    ensures Dependees(g, k, t) <= w.failed
  {
    hide Shaky, TidFn;
    forall fn | fn in Ids(g, k) && t in Ids(g, k)[fn] ensures fn in w.failed {
      assert Ids(g, k).Keys == seen;
      assert t in Elems(Ids(g, k)[fn]);
      assert t in NamesOf(dc.recipes[fn], k);
    }
    forall tid | tid in g.entries && Mentions(TaskIds(g.entries[tid], k), t) ensures TidFn(tid) in w.failed {
      var deps := TaskIds(g.entries[tid], k);
      var i :| 0 <= i < |deps| && deps[i].0 == t;
      assert deps[i] in deps && t in Heads(deps);
    }
  }

  lemma LimitsClosed(dc: DataCache, g: Graph, b: Books, seen: set<Fn>, w: Limits)
    requires Recorded(dc, g, seen) && EntriesKnown(dc, g, seen) && Origin(dc, b)
    requires Consistent(dc, w) && Within(dc, b, seen, w)
    ensures Closed(g, b.listing, w.failed)
  {
    hide Recorded, EntriesKnown, Consistent;
    forall k, t | Exhausted(Side(b.listing, k), t, w.failed) ensures Dependees(g, k, t) <= w.failed {
      var p := ListOf(b, k, t)[0];
      assert p in ListOf(b, k, t);
      DependeesMayFail(dc, g, seen, w, k, t);
    }
  }

  /** A cascade that began within the limits. */
  lemma CascadeWithinLimits(dc: DataCache, g: Graph, b0: Books, b1: Books, seen: set<Fn>, w: Limits, hit: set<Fn>,
      d: set<Name>, r: set<Name>)
    requires Recorded(dc, g, seen) && EntriesKnown(dc, g, seen) && Origin(dc, b0)
    requires Consistent(dc, w) && Within(dc, b0, seen, w) && hit <= w.failed
    requires Settled(g, b0, b1, d, r) && b1.failed <= Cascade(g, b0.listing, b0.failed + hit)
    requires forall t :: t in d ==> MayBeLost(dc, w, BuildTime, t)
    requires forall t :: t in r ==> MayBeLost(dc, w, RunTime, t)
    ensures Within(dc, b1, seen, w)
  {
    LimitsClosed(dc, g, b0, seen, w);
    CascadeLeast(g, b0.listing, b0.failed + hit, w.failed);
    hide Recorded, EntriesKnown, Consistent, Cascade, Closed, SettledOn, Origin, MayBeLost;
    LostWithinLimits(dc, g, b0, b1, seen, w, BuildTime, d);
    LostWithinLimits(dc, g, b0, b1, seen, w, RunTime, r);
  }

  lemma LostWithinLimits(dc: DataCache, g: Graph, b0: Books, b1: Books, seen: set<Fn>, w: Limits, k: Kind, x: set<Name>)
    requires Origin(dc, b0) && Within(dc, b0, seen, w) && b1.failed <= w.failed
    requires SettledOn(k, g, b0, b1, x) && forall t :: t in x ==> MayBeLost(dc, w, k, t)
    ensures Side(b1.listing, k).Keys <= w.Names(k) && forall t :: t in Lost(b1, k) ==> MayBeLost(dc, w, k, t)
  {
    var m0, m1 := Side(b0.listing, k), Side(b1.listing, k);
    forall t | t in Emptied(m0, m1) ensures MayBeLost(dc, w, k, t) {
      var p := m0[t][0];
      WithoutElems(m0[t], b1.failed - b0.failed);
      assert p in ListOf(b0, k, t) && p in b1.failed;
    }
  }

  // ---------- the steps of resolving ----------

  /** A recipe is taken in: the names it mentions become known. */
  lemma TakingIn(dc: DataCache, b0: Books, b1: Books, seen: set<Fn>, fn: Fn)
    requires fn in dc.recipes && Widened(b0, b1)
    requires b1.listing.build.Keys <= b0.listing.build.Keys + NamesOf(dc.recipes[fn], BuildTime)
    requires b1.listing.run.Keys <= b0.listing.run.Keys + NamesOf(dc.recipes[fn], RunTime)
    ensures Follows(dc, b0, seen, b1, seen + {fn}, NOTHING.(seen := {fn}))
  {
    hide NamesOf, MayBeLost, WidenedOn;
    forall w | Consistent(dc, w) && fn in w.seen && Within(dc, b0, seen, w) ensures Within(dc, b1, seen + {fn}, w) {
      assert NamesOf(dc.recipes[fn], BuildTime) <= w.Names(BuildTime);
      assert NamesOf(dc.recipes[fn], RunTime) <= w.Names(RunTime);
      forall k ensures Lost(b1, k) == Lost(b0, k) && Side(b1.listing, k).Keys <= w.Names(k) {
        assert Side(b0.listing, k).Keys <= w.Names(k);
      }
    }
  }

  /** It fails at once, because something it depends on has been lost. */
  lemma FailingAtOnce(dc: DataCache, g: Graph, b0: Books, b1: Books, seen: set<Fn>, fn: Fn, k: Kind, t: Name)
    requires Recorded(dc, g, seen) && EntriesKnown(dc, g, seen) && Origin(dc, b0)
    requires fn in seen && fn in dc.recipes && t in DepsOf(dc.recipes[fn], k) && t in Lost(b0, k)
    requires Settled(g, b0, b1, {}, {}) && b1.failed <= Cascade(g, b0.listing, b0.failed + {fn})
    ensures Follows(dc, b0, seen, b1, seen, NOTHING)
  {
    hide Recorded, EntriesKnown, Origin, Settled, Cascade;
    forall w | Consistent(dc, w) && Within(dc, b0, seen, w) ensures Within(dc, b1, seen, w) {
      assert t in NamesOf(dc.recipes[fn], k);
      CascadeWithinLimits(dc, g, b0, b1, seen, w, {fn}, {}, {});
    }
  }

  /** A target of which there is no hope is given up. */
  lemma GivingUp(dc: DataCache, g: Graph, b0: Books, b1: Books, seen: set<Fn>, k: Kind, t: Name)
    requires Recorded(dc, g, seen) && EntriesKnown(dc, g, seen) && Origin(dc, b0)
    requires !dc.ignored(t) && if k == BuildTime then NoneLeft(dc, b0.failed, t) else Refused(dc, b0.failed, t)
    requires Settled(g, b0, b1, if k == BuildTime then {t} else {}, if k == RunTime then {t} else {})
    requires b1.failed <= Cascade(g, b0.listing, b0.failed + Dependees(g, k, t))
    ensures Follows(dc, b0, seen, b1, seen, NOTHING)
  {
    hide Recorded, EntriesKnown, Origin, Settled, Cascade, Consistent, Dependees;
    forall w | Consistent(dc, w) && Within(dc, b0, seen, w) ensures Within(dc, b1, seen, w) {
      assert Shaky(dc, w.failed, k, t) by {
        if Candidates(dc, k, t) != [] {
          assert Candidates(dc, k, t)[0] in Elems(Candidates(dc, k, t));
        }
      }
      hide Shaky;
      DependeesMayFail(dc, g, seen, w, k, t);
      CascadeWithinLimits(dc, g, b0, b1, seen, w, Dependees(g, k, t),
        if k == BuildTime then {t} else {}, if k == RunTime then {t} else {});
    }
  }

  /** A run-time target that the filter finds no unfailed provider for, or too many preferred ones. */
  ghost predicate Refused(dc: DataCache, failed: set<Fn>, t: Name) {
    dc.runProviders(t) == [] || Elems(dc.eligibleRun(t).0) <= failed || dc.eligibleRun(t).1 > 1
  }

  /** A candidate is listed for a target that may become known. */
  lemma ListingFollows(dc: DataCache, b0: Books, b1: Books, seen: set<Fn>, k: Kind, item: Name, fn: Fn)
    requires Listed(b0, b1, k, item, fn)
    ensures Follows(dc, b0, seen, b1, seen, NeedOf(k, item))
  {
    hide MayBeLost;
    forall w | Within(dc, b0, seen, w) && Allows(w, NeedOf(k, item)) ensures Within(dc, b1, seen, w) {
      forall j ensures Lost(b1, j) == Lost(b0, j) && Side(b1.listing, j).Keys <= w.Names(j) {
        assert j == k || j == Other(k);
        assert Side(b0.listing, j).Keys <= w.Names(j);
      }
    }
  }

  function NeedOf(k: Kind, item: Name): Limits {
    if k == BuildTime then NOTHING.(build := {item}) else NOTHING.(run := {item})
  }

  /** Whatever is needed for a target's candidate is needed for the target. */
  lemma CandidateFollows(dc: DataCache, b0: Books, s0: set<Fn>, b1: Books, s1: set<Fn>, k: Kind, item: Name, fn: Fn)
    requires !dc.ignored(item) && fn in Candidates(dc, k, item)
    requires Follows(dc, b0, s0, b1, s1, NOTHING.(seen := {fn}))
    ensures Follows(dc, b0, s0, b1, s1, NeedOf(k, item))
  {
    forall w | Consistent(dc, w) && Allows(w, NeedOf(k, item)) && Within(dc, b0, s0, w) ensures Within(dc, b1, s1, w) {
      assert item in w.Names(k);
      assert fn in w.seen;
      hide Consistent, Within;
      assert Allows(w, NOTHING.(seen := {fn}));
    }
  }

  // ---------- a target that is given up too soon ----------

  /** Something the recipe depends on has been lost, so that it will fail as soon as it is taken in. */
  ghost predicate BoundToFail(dc: DataCache, b: Books, fn: Fn) {
    fn in dc.recipes && exists k, t :: t in DepsOf(dc.recipes[fn], k) && t in Lost(b, k)
  }

  /** The first recipe listed for a target fails at once: the target is lost with it, whatever is to come. */
  lemma LostAtOnce(dc: DataCache, g: Graph, b0: Books, b1: Books, b2: Books, seen: set<Fn>, k: Kind, item: Name, fn: Fn)
    requires Listed(b0, b1, k, item, fn) && Kept(b1, b2) && ListOf(b0, k, item) == []
    requires Recorded(dc, g, seen) && Tidy(g, b2, seen, {}) && fn in seen
    requires fn !in b0.failed && BoundToFail(dc, b0, fn) && (forall j :: Lost(b0, j) <= Lost(b2, j)) &&
             Done(b2, k, item)
    ensures item in Lost(b2, k) && fn in b2.failed
  {
    var j, t :| t in DepsOf(dc.recipes[fn], j) && t in Lost(b0, j);
    RecordedIds(dc, g, seen, fn, j, t);
    assert fn in b2.failed;
    ListedKept(b0, b1, k, item, fn);
    ListedFailed(b0, b1, k, item, fn);
    hide Listed, Recorded, Tidy;
    WithoutElems(ListOf(b1, k, item), b2.failed - b1.failed);
  }

  lemma RecordedIds(dc: DataCache, g: Graph, seen: set<Fn>, fn: Fn, k: Kind, t: Name)
    requires Recorded(dc, g, seen) && fn in seen && fn in dc.recipes && t in DepsOf(dc.recipes[fn], k)
    ensures fn in Ids(g, k) && t in Ids(g, k)[fn]
  {
    assert Ids(g, k).Keys == seen;
    InElems(Ids(g, k)[fn], t);
  }

  // ---------- the lists, all of them ----------

  /** No filter names a recipe twice. */
  ghost predicate Single(dc: DataCache) {
    forall k, t :: NoDup(Candidates(dc, k, t))
  }

  /** Every target that has providers has all its candidates that have not failed, in their order. */
  ghost predicate Sourced(dc: DataCache, b: Books) {
    forall k, t :: ListOf(b, k, t) != [] ==> ListOf(b, k, t) == Without(Candidates(dc, k, t), b.failed)
  }

  lemma SourcedBut(dc: DataCache, b0: Books, b1: Books, k: Kind, item: Name)
    requires Sourced(dc, b0) && KeptBut(b0, b1, (k, item))
    requires ListOf(b1, k, item) != [] ==> ListOf(b1, k, item) == Without(Candidates(dc, k, item), b1.failed)
    ensures Sourced(dc, b1)
  {
    forall j, t | (j, t) != (k, item) && ListOf(b1, j, t) != []
      ensures ListOf(b1, j, t) == Without(Candidates(dc, j, t), b1.failed) {
      WithoutElems(ListOf(b0, j, t), b1.failed - b0.failed);
      WithoutTwice(Candidates(dc, j, t), b0.failed, b1.failed - b0.failed);
      assert b0.failed + (b1.failed - b0.failed) == b1.failed;
    }
  }

  lemma SourcedKept(dc: DataCache, b0: Books, b1: Books)
    requires Sourced(dc, b0) && Kept(b0, b1)
    ensures Sourced(dc, b1)
  {
    forall j, t | ListOf(b1, j, t) != [] ensures ListOf(b1, j, t) == Without(Candidates(dc, j, t), b1.failed) {
      WithoutElems(ListOf(b0, j, t), b1.failed - b0.failed);
      WithoutTwice(Candidates(dc, j, t), b0.failed, b1.failed - b0.failed);
      assert b0.failed + (b1.failed - b0.failed) == b1.failed;
    }
  }

  /** One state led to another: within all limits, and with complete lists. */
  ghost predicate Led(dc: DataCache, b0: Books, s0: set<Fn>, b1: Books, s1: set<Fn>, need: Limits) {
    && (PlainTasks(dc) ==> Follows(dc, b0, s0, b1, s1, need))
    && (Single(dc) && Sourced(dc, b0) ==> Sourced(dc, b1))
  }

  lemma LedRefl(dc: DataCache, b: Books, s: set<Fn>, need: Limits)
    ensures Led(dc, b, s, b, s, need)
  {
    FollowsRefl(dc, b, s, need);
  }

  lemma LedTrans(dc: DataCache, b0: Books, s0: set<Fn>, b1: Books, s1: set<Fn>, b2: Books, s2: set<Fn>, need: Limits)
    requires Led(dc, b0, s0, b1, s1, need) && Led(dc, b1, s1, b2, s2, need)
    ensures Led(dc, b0, s0, b2, s2, need)
  {
    hide Follows, Sourced, Single, PlainTasks;
    if PlainTasks(dc) {
      FollowsTrans(dc, b0, s0, b1, s1, b2, s2, need);
    }
  }

  lemma LedMore(dc: DataCache, b0: Books, s0: set<Fn>, b1: Books, s1: set<Fn>, need: Limits, more: Limits)
    requires Led(dc, b0, s0, b1, s1, need) && Allows(more, need)
    ensures Led(dc, b0, s0, b1, s1, more)
  {
    hide Follows, Sourced, Single, PlainTasks;
    if PlainTasks(dc) {
      FollowsMore(dc, b0, s0, b1, s1, need, more);
    }
  }

  /** A target that is known already is within the limits anyway. */
  lemma LedKnown(dc: DataCache, b0: Books, s0: set<Fn>, b1: Books, s1: set<Fn>, k: Kind, t: Name)
    requires Led(dc, b0, s0, b1, s1, NeedOf(k, t)) && t in Side(b0.listing, k)
    ensures Led(dc, b0, s0, b1, s1, NOTHING)
  {
    hide Sourced, Single, PlainTasks;
    if PlainTasks(dc) {
      forall w | Consistent(dc, w) && Within(dc, b0, s0, w) ensures Within(dc, b1, s1, w) {
        assert Side(b0.listing, k).Keys <= w.Names(k);
        assert Allows(w, NeedOf(k, t));
      }
    }
  }

  lemma GivingUpLeads(dc: DataCache, g: Graph, b0: Books, b1: Books, seen: set<Fn>, k: Kind, t: Name)
    requires Recorded(dc, g, seen) && (PlainTasks(dc) ==> EntriesKnown(dc, g, seen)) && Origin(dc, b0)
    requires !dc.ignored(t) && if k == BuildTime then NoneLeft(dc, b0.failed, t) else Refused(dc, b0.failed, t)
    requires Settled(g, b0, b1, if k == BuildTime then {t} else {}, if k == RunTime then {t} else {})
    requires b1.failed <= Cascade(g, b0.listing, b0.failed + Dependees(g, k, t))
    ensures Led(dc, b0, seen, b1, seen, NOTHING) && Origin(dc, b1)
  {
    SettledKept(g, b0, b1, if k == BuildTime then {t} else {}, if k == RunTime then {t} else {});
    OriginKept(dc, b0, b1);
    hide Recorded, EntriesKnown, Origin, Settled, Cascade, Dependees, Sourced, Follows, Kept, NoneLeft, Refused;
    if PlainTasks(dc) {
      GivingUp(dc, g, b0, b1, seen, k, t);
    }
    if Sourced(dc, b0) {
      SourcedKept(dc, b0, b1);
    }
  }

  // ---------- what it comes to ----------

  /** If there is a recipe for everything that may be mentioned, and no choice is refused, nothing fails. */
  lemma NothingFails(dc: DataCache, b: Books, seen: set<Fn>, w: Limits)
    requires forall k, fn, t ::
             fn in w.seen && fn in dc.recipes && t in NamesOf(dc.recipes[fn], k) && !dc.ignored(t) ==>
               !Shaky(dc, {}, k, t)
    requires Consistent(dc, w) && Follows(dc, EMPTY, {}, b, seen, w)
    ensures b.failed == {}
  {
    var v := w.(failed := {});
    assert Consistent(dc, v) by {
      hide Shaky, NamesOf, Candidates;
      assert forall k :: v.Names(k) == w.Names(k);
      forall k, fn | fn in v.seen && fn in dc.recipes ensures NamesOf(dc.recipes[fn], k) <= v.Names(k) {
        assert NamesOf(dc.recipes[fn], k) <= w.Names(k);
      }
    }
    assert Within(dc, EMPTY, {}, v) by {
      forall k ensures Side(EMPTY.listing, k) == map[] && Lost(EMPTY, k) == {} {
      }
    }
  }

  lemma LedFromNothing(dc: DataCache, b: Books, seen: set<Fn>, need: Limits)
    requires Led(dc, EMPTY, {}, b, seen, need)
    ensures PlainTasks(dc) ==> Follows(dc, EMPTY, {}, b, seen, need)
    ensures Single(dc) ==> Sourced(dc, b)
  {
    hide Follows;
    forall k, t ensures ListOf(EMPTY, k, t) == [] {
    }
  }

  const EMPTY := Books(Listing(map[], map[]), {}, {}, {})
}
