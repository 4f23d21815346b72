/** Variable dependencies of the tasks of a recipe, and the string each base hash is taken of. */
module VarDeps {
  import opened Collections
  import opened Strings

  type Var = string

  /**
   What the datastore says of a variable: the variables its value refers to, and the value
   itself. References may form cycles.
   */
  datatype Datastore = Datastore(tasklist: seq<Var>, refs: Var -> set<Var>, value: Var -> Option<string>)

  function Next(d: Datastore, ignored: set<Var>, v: Var): set<Var> {
    d.refs(v) - ignored
  }

  // ---------- reachability ----------

  ghost predicate IsPath(d: Datastore, ignored: set<Var>, p: seq<Var>) {
    |p| >= 2 && forall i :: 0 <= i < |p| - 1 ==> p[i + 1] in Next(d, ignored, p[i])
  }

  /** w is reached from v in one or more steps that avoid ignored variables. */
  ghost predicate Reaches(d: Datastore, ignored: set<Var>, v: Var, w: Var) {
    exists p :: IsPath(d, ignored, p) && p[0] == v && p[|p| - 1] == w
  }

  lemma ReachesNext(d: Datastore, ignored: set<Var>, v: Var, w: Var)
    requires w in Next(d, ignored, v)
    ensures Reaches(d, ignored, v, w)
  {
    assert IsPath(d, ignored, [v, w]);
    assert [v, w][|[v, w]| - 1] == w;
  }

  lemma ReachesFurther(d: Datastore, ignored: set<Var>, v: Var, w: Var, x: Var)
    requires Reaches(d, ignored, v, w) && x in Next(d, ignored, w)
    ensures Reaches(d, ignored, v, x)
  {
    var p :| IsPath(d, ignored, p) && p[0] == v && p[|p| - 1] == w;
    var q := p + [x];
    assert IsPath(d, ignored, q) && q[0] == v && q[|q| - 1] == x;
  }

  /** What is reached: what the variable refers to, and what those refer to in turn, but nothing that is ignored. */
  lemma ReachesExactly(d: Datastore, ignored: set<Var>, v: Var, w: Var)
    ensures Reaches(d, ignored, v, w) <==>
            w !in ignored && (w in d.refs(v) || exists x :: Reaches(d, ignored, v, x) && w in d.refs(x))
  {
    if Reaches(d, ignored, v, w) {
      var p :| IsPath(d, ignored, p) && p[0] == v && p[|p| - 1] == w;
      var n := |p| - 1;
      assert p[n - 1 + 1] in Next(d, ignored, p[n - 1]);
      if n > 1 {
        assert IsPath(d, ignored, p[..n]) && p[..n][0] == v && p[..n][|p[..n]| - 1] == p[n - 1];
      }
    }
    if w !in ignored && w in d.refs(v) {
      ReachesNext(d, ignored, v, w);
    }
    if x :| w !in ignored && Reaches(d, ignored, v, x) && w in d.refs(x) {
      ReachesFurther(d, ignored, v, x, w);
    }
  }

  lemma ReachedIsNotIgnored(d: Datastore, ignored: set<Var>, v: Var, w: Var)
    requires Reaches(d, ignored, v, w)
    ensures w !in ignored
  {
    var p :| IsPath(d, ignored, p) && p[0] == v && p[|p| - 1] == w;
    assert p[|p| - 2 + 1] in Next(d, ignored, p[|p| - 2]);
  }

  ghost predicate ClosedUnder(d: Datastore, ignored: set<Var>, c: set<Var>) {
    forall v :: v in c ==> Next(d, ignored, v) <= c
  }

  /** A closed set that holds the direct references holds everything reached. */
  lemma {:induction false} ReachesInClosed(d: Datastore, ignored: set<Var>, v: Var, c: set<Var>)
    requires Next(d, ignored, v) <= c && ClosedUnder(d, ignored, c)
    ensures forall w :: Reaches(d, ignored, v, w) ==> w in c
  {
    forall w | Reaches(d, ignored, v, w) ensures w in c {
      var p :| IsPath(d, ignored, p) && p[0] == v && p[|p| - 1] == w;
      PathInClosed(d, ignored, p, c, |p| - 1);
    }
  }

  lemma {:induction false} PathInClosed(d: Datastore, ignored: set<Var>, p: seq<Var>, c: set<Var>, i: nat)
    requires IsPath(d, ignored, p) && Next(d, ignored, p[0]) <= c && ClosedUnder(d, ignored, c)
    requires 1 <= i < |p|
    ensures p[i] in c
  {
    if i > 1 {
      PathInClosed(d, ignored, p, c, i - 1);
    }
    assert p[i - 1 + 1] in Next(d, ignored, p[i - 1]);
  }

  // ---------- first pass ----------

  /** The tables hold what the datastore says. */
  ghost predicate Faithful(d: Datastore, deps: map<Var, set<Var>>, values: map<Var, Option<string>>) {
    && deps.Keys == values.Keys
    && forall v :: v in deps ==> deps[v] == d.refs(v) && values[v] == d.value(v)
  }

  ghost predicate Justified(d: Datastore, ignored: set<Var>, v: Var) {
    v in d.tasklist || exists t :: t in d.tasklist && Reaches(d, ignored, t, v)
  }

  /** Every task and everything a task reaches has an entry. */
  ghost predicate Complete(d: Datastore, ignored: set<Var>, deps: map<Var, set<Var>>, n: nat)
    requires n <= |d.tasklist|
  {
    forall i :: 0 <= i < n ==> d.tasklist[i] in deps && forall w :: Reaches(d, ignored, d.tasklist[i], w) ==> w in deps
  }

  /** A finite set in which all references stay: the variables that occur at all. */
  ghost predicate Universe(d: Datastore, u: set<Var>) {
    (forall t :: t in d.tasklist ==> t in u) && (forall v :: v in u ==> d.refs(v) <= u)
  }

  /** One round of the worklist: look each variable up, unless that was done before, and gather what they refer to. */
  method Spread(d: Datastore, deps0: map<Var, set<Var>>, values0: map<Var, Option<string>>, nextdeps: set<Var>)
    returns (deps: map<Var, set<Var>>, values: map<Var, Option<string>>, newdeps: set<Var>)
    requires Faithful(d, deps0, values0)
    ensures Faithful(d, deps, values) && deps.Keys == deps0.Keys + nextdeps
    ensures forall w :: w in newdeps <==> exists v :: v in nextdeps && w in d.refs(v)
  {
    deps, values, newdeps := deps0, values0, {};
    var order := Enumerate(nextdeps);
    for i := 0 to |order|
      invariant Faithful(d, deps, values) && deps.Keys == deps0.Keys + Elems(order[..i])
      invariant forall w :: w in newdeps <==> exists v :: v in order[..i] && w in d.refs(v)
    {
      var dep := order[i];
      if dep !in deps {
        deps, values := deps[dep := d.refs(dep)], values[dep := d.value(dep)];
      }
      newdeps := newdeps + deps[dep];
      assert order[..i + 1] == order[..i] + [dep];
    }
    assert order[..|order|] == order;
    assert forall v :: v in order <==> v in Elems(order);
  }

  /** The worklist of one task, which has its entry already: everything the task reaches gets one. */
  method Explore(d: Datastore, ignored: set<Var>, task: Var, deps0: map<Var, set<Var>>, values0: map<Var,
      Option<string>>, ghost u: set<Var>)
    returns (deps: map<Var, set<Var>>, values: map<Var, Option<string>>)
    requires Universe(d, u) && task in u && task in deps0 && Faithful(d, deps0, values0)
    ensures Faithful(d, deps, values) && deps0.Keys <= deps.Keys
    ensures forall v :: v in deps && v !in deps0 ==> Reaches(d, ignored, task, v)
    ensures forall w :: Reaches(d, ignored, task, w) ==> w in deps
  {
    hide Reaches, IsPath;
    deps, values := deps0, values0;
    var newdeps := deps[task];
    var seen := {};
    forall v | v in newdeps - ignored ensures Reaches(d, ignored, task, v) {
      ReachesNext(d, ignored, task, v);
    }
    while newdeps != {}
      invariant Faithful(d, deps, values) && deps.Keys == deps0.Keys + seen
      invariant newdeps <= u && seen <= u && seen !! newdeps && seen !! ignored
      invariant forall v :: v in seen || v in newdeps - ignored ==> Reaches(d, ignored, task, v)
      invariant Next(d, ignored, task) <= seen + newdeps
      invariant forall v :: v in seen ==> Next(d, ignored, v) <= seen + newdeps
      decreases u - seen, newdeps
    {
      ghost var was := seen;
      var nextdeps := newdeps - ignored;
      seen := seen + nextdeps;
      deps, values, newdeps := Spread(d, deps, values, nextdeps);
      Gathered(d, ignored, task, was, nextdeps, newdeps, u);
      newdeps := newdeps - seen;
    }
    assert ClosedUnder(d, ignored, seen);
    ReachesInClosed(d, ignored, task, seen);
  }

  /** What the references of one round amount to. */
  lemma Gathered(d: Datastore, ignored: set<Var>, task: Var, seen: set<Var>, nextdeps: set<Var>, newdeps: set<Var>,
      u: set<Var>)
    requires Universe(d, u) && nextdeps <= u && nextdeps !! ignored
    requires forall w :: w in newdeps <==> exists v :: v in nextdeps && w in d.refs(v)
    requires forall v :: v in nextdeps ==> Reaches(d, ignored, task, v)
    ensures newdeps <= u
    ensures forall v :: v in newdeps - ignored ==> Reaches(d, ignored, task, v)
    ensures forall v :: v in nextdeps ==> Next(d, ignored, v) <= newdeps
  {
    forall v | v in newdeps - ignored ensures Reaches(d, ignored, task, v) {
      var w :| w in nextdeps && v in d.refs(w);
      ReachesFurther(d, ignored, task, w, v);
    }
  }

  method GenerateDependencies(d: Datastore, ignored: set<Var>, ghost u: set<Var>)
    returns (deps: map<Var, set<Var>>, values: map<Var, Option<string>>)
    requires Universe(d, u)
    ensures Faithful(d, deps, values)
    ensures Complete(d, ignored, deps, |d.tasklist|)
    ensures forall v :: v in deps ==> Justified(d, ignored, v)
  {
    hide Reaches;
    deps, values := map[], map[];
    for i := 0 to |d.tasklist|
      invariant Faithful(d, deps, values)
      invariant Complete(d, ignored, deps, i)
      invariant forall v :: v in deps ==> Justified(d, ignored, v)
    {
      var task := d.tasklist[i];
      deps, values := deps[task := d.refs(task)], values[task := d.value(task)];
      deps, values := Explore(d, ignored, task, deps, values, u);
    }
  }

  // ---------- second pass ----------

  /** What a dependency adds to the string a base hash is taken of. */
  function DepText(lookup: map<Var, Option<string>>, dep: Var): string
    requires dep in lookup
  {
    dep + lookup[dep].GetOr("")
  }

  /** The whole string: the task's own value, then each dependency's name and value. */
  function BaseText(lookup: map<Var, Option<string>>, task: Var, deps: seq<Var>): string
    requires task in lookup && forall v :: v in deps ==> v in lookup
  {
    if deps == [] then lookup[task].GetOr("")
    else BaseText(lookup, task, deps[..|deps| - 1]) + DepText(lookup, deps[|deps| - 1])
  }

  /** All of them have a value recorded. */
  ghost predicate Holds(lookup: map<Var, Option<string>>, task: Var, deps: seq<Var>) {
    task in lookup && forall v :: v in deps ==> v in lookup
  }

  lemma BaseStep(lookup: map<Var, Option<string>>, task: Var, deps: seq<Var>)
    requires Holds(lookup, task, deps) && deps != []
    ensures var n := |deps| - 1;
            && Holds(lookup, task, deps[..n]) && deps[n] in lookup && (forall v :: v in deps[..n] ==> v in deps)
            && BaseText(lookup, task, deps) == BaseText(lookup, task, deps[..n]) + (deps[n] + lookup[deps[n]].GetOr(""))
  {
  }

  lemma SameRest(a: string, b: string, rest: string)
    ensures a + rest == b + rest <==> a == b
  {
    assert |a| == |b| ==> (a + rest)[..|a|] == a && (b + rest)[..|b|] == b;
  }

  lemma SameStart(start: string, a: string, b: string)
    ensures start + a == start + b <==> a == b
  {
    assert (start + a)[|start|..] == a && (start + b)[|start|..] == b;
  }

  /** The task's own value comes first: another one gives another string, all else being equal. */
  lemma {:induction false} OwnValueTells(lookup: map<Var, Option<string>>, lookup': map<Var, Option<string>>, task: Var,
      deps: seq<Var>)
    requires Holds(lookup, task, deps) && Holds(lookup', task, deps)
    requires forall v :: v in deps ==> lookup[v] == lookup'[v]
    ensures exists rest :: BaseText(lookup, task, deps) == lookup[task].GetOr("") + rest &&
                           BaseText(lookup', task, deps) == lookup'[task].GetOr("") + rest
    ensures BaseText(lookup, task, deps) == BaseText(lookup', task, deps) <==>
            lookup[task].GetOr("") == lookup'[task].GetOr("")
  {
    var a, a' := lookup[task].GetOr(""), lookup'[task].GetOr("");
    if deps == [] {
      assert a + "" == a && a' + "" == a';
    } else {
      hide BaseText, Holds;
      BaseStep(lookup, task, deps);
      BaseStep(lookup', task, deps);
      var n := |deps| - 1;
      OwnValueTells(lookup, lookup', task, deps[..n]);
      var rest :| BaseText(lookup, task, deps[..n]) == a + rest && BaseText(lookup', task, deps[..n]) == a' + rest;
      var last := deps[n] + lookup[deps[n]].GetOr("");
      assert deps[n] in deps;
      assert a + rest + last == a + (rest + last) && a' + rest + last == a' + (rest + last);
      SameRest(a, a', rest + last);
    }
  }

  lemma {:induction false} SameBase(lookup: map<Var, Option<string>>, lookup': map<Var, Option<string>>, task: Var,
      deps: seq<Var>)
    requires Holds(lookup, task, deps) && Holds(lookup', task, deps) && lookup[task] == lookup'[task]
    requires forall v :: v in deps ==> lookup[v] == lookup'[v]
    ensures BaseText(lookup, task, deps) == BaseText(lookup', task, deps)
  {
    if deps != [] {
      hide BaseText, Holds;
      BaseStep(lookup, task, deps);
      BaseStep(lookup', task, deps);
      assert deps[|deps| - 1] in deps;
      SameBase(lookup, lookup', task, deps[..|deps| - 1]);
    }
  }

  /** Each dependency adds its name and value: another value of one gives another string, all else being equal. */
  lemma {:induction false} OneValueTells(lookup: map<Var, Option<string>>, lookup': map<Var, Option<string>>, task: Var,
      deps: seq<Var>, i: nat)
    requires i < |deps| && NoDup(deps) && deps[i] != task
    requires Holds(lookup, task, deps) && Holds(lookup', task, deps) && lookup[task] == lookup'[task]
    requires forall v :: v in deps && v != deps[i] ==> lookup[v] == lookup'[v]
    ensures deps[i] in lookup && deps[i] in lookup'
    ensures BaseText(lookup, task, deps) == BaseText(lookup', task, deps) <==>
            lookup[deps[i]].GetOr("") == lookup'[deps[i]].GetOr("")
    decreases |deps|
  {
    BaseStep(lookup, task, deps);
    BaseStep(lookup', task, deps);
    assert deps[i] in deps && deps[|deps| - 1] in deps;
    hide BaseText, Holds;
    var n := |deps| - 1;
    var front, name := deps[..n], deps[n];
    if i == n {
      assert name !in front;
      SameBase(lookup, lookup', task, front);
      var before, x, y := BaseText(lookup, task, front), lookup[name].GetOr(""), lookup'[name].GetOr("");
      SameStart(name, x, y);
      SameStart(before, name + x, name + y);
    } else {
      assert name != deps[i] && front[i] == deps[i];
      OneValueTells(lookup, lookup', task, front, i);
      SameRest(BaseText(lookup, task, front), BaseText(lookup', task, front), name + lookup[name].GetOr(""));
    }
  }

  /** `"".join(data)` */
  function Join(data: seq<string>): string {
    if data == [] then "" else Join(data[..|data| - 1]) + data[|data| - 1]
  }

  /** The entries of touched variables have lost the ignored ones; the others are as they were. */
  ghost predicate Pruned(gendeps0: map<Var, set<Var>>, gendeps: map<Var, set<Var>>, ignored: set<Var>,
      touched: set<Var>) {
    && gendeps.Keys == gendeps0.Keys && touched <= gendeps.Keys
    && forall v :: v in gendeps ==> gendeps[v] == if v in touched then gendeps0[v] - ignored else gendeps0[v]
  }

  /** The worklist of one task over the tables; `-=` removes the ignored variables from each entry met. */
  method Collect(d: Datastore, ignored: set<Var>, task: Var, gendeps0: map<Var, set<Var>>, ghost full: map<Var,
      set<Var>>, ghost touched0: set<Var>)
    returns (gendeps: map<Var, set<Var>>, seen: set<Var>, ghost touched: set<Var>)
    requires forall v :: v in full ==> full[v] == d.refs(v)
    requires Pruned(full, gendeps0, ignored, touched0)
    requires task in full && forall w :: Reaches(d, ignored, task, w) ==> w in full
    ensures touched == touched0 + {task} + seen && Pruned(full, gendeps, ignored, touched)
    ensures forall v :: v in seen <==> Reaches(d, ignored, task, v)
  {
    hide Reaches, IsPath, Pruned;
    PrunedTouch(full, gendeps0, ignored, touched0, task);
    gendeps, touched := gendeps0[task := gendeps0[task] - ignored], touched0 + {task};
    var newdeps := gendeps[task];
    seen := {};
    forall v | v in newdeps ensures Reaches(d, ignored, task, v) {
      ReachesNext(d, ignored, task, v);
    }
    while newdeps != {}
      invariant touched == touched0 + {task} + seen && Pruned(full, gendeps, ignored, touched)
      invariant newdeps !! ignored && seen !! ignored && seen !! newdeps && seen <= full.Keys
      invariant forall v :: v in seen || v in newdeps ==> Reaches(d, ignored, task, v)
      invariant Next(d, ignored, task) <= seen + newdeps
      invariant forall v :: v in seen ==> Next(d, ignored, v) <= seen + newdeps
      decreases full.Keys - seen, newdeps
    {
      var nextdeps := newdeps;
      seen := seen + nextdeps;
      gendeps, newdeps, touched := Prune(ignored, gendeps, nextdeps, full, touched);
      GatheredPruned(d, ignored, task, nextdeps, newdeps, full);
      newdeps := newdeps - seen;
    }
    assert ClosedUnder(d, ignored, seen);
    ReachesInClosed(d, ignored, task, seen);
  }

  lemma PrunedTouch(full: map<Var, set<Var>>, gendeps: map<Var, set<Var>>, ignored: set<Var>, touched: set<Var>, v: Var)
    requires Pruned(full, gendeps, ignored, touched) && v in full
    ensures v in gendeps && gendeps[v] - ignored == full[v] - ignored
    ensures Pruned(full, gendeps[v := gendeps[v] - ignored], ignored, touched + {v})
  {
  }

  lemma GatheredPruned(d: Datastore, ignored: set<Var>, task: Var, nextdeps: set<Var>, newdeps: set<Var>,
      full: map<Var, set<Var>>)
    requires forall v :: v in full ==> full[v] == d.refs(v)
    requires nextdeps <= full.Keys
    requires forall w :: w in newdeps <==> exists v :: v in nextdeps && w in full[v] - ignored
    requires forall v :: v in nextdeps ==> Reaches(d, ignored, task, v)
    ensures newdeps !! ignored
    ensures forall v :: v in newdeps ==> Reaches(d, ignored, task, v)
    ensures forall v :: v in nextdeps ==> Next(d, ignored, v) <= newdeps
  {
    forall v | v in newdeps ensures Reaches(d, ignored, task, v) {
      var w :| w in nextdeps && v in full[w] - ignored;
      ReachesFurther(d, ignored, task, w, v);
    }
  }

  method Prune(ignored: set<Var>, gendeps0: map<Var, set<Var>>, nextdeps: set<Var>, ghost full: map<Var, set<Var>>,
      ghost touched0: set<Var>)
    returns (gendeps: map<Var, set<Var>>, newdeps: set<Var>, ghost touched: set<Var>)
    requires Pruned(full, gendeps0, ignored, touched0)
    requires nextdeps <= full.Keys && nextdeps !! ignored
    ensures touched == touched0 + nextdeps && Pruned(full, gendeps, ignored, touched)
    ensures forall w :: w in newdeps <==> exists v :: v in nextdeps && w in full[v] - ignored
  {
    hide Pruned;
    gendeps, newdeps, touched := gendeps0, {}, touched0;
    var order := Enumerate(nextdeps);
    assert forall v :: v in order <==> v in Elems(order);
    for i := 0 to |order|
      invariant touched == touched0 + Elems(order[..i]) && Pruned(full, gendeps, ignored, touched)
      invariant forall w :: w in newdeps <==> exists v :: v in order[..i] && w in full[v] - ignored
    {
      var dep := order[i];
      assert order[..i + 1] == order[..i] + [dep];
      if dep in ignored {
        continue;
      }
      PrunedTouch(full, gendeps, ignored, touched, dep);
      gendeps, touched := gendeps[dep := gendeps[dep] - ignored], touched + {dep};
      newdeps := newdeps + gendeps[dep];
    }
    assert order[..|order|] == order;
  }

  /** The base hash of a task: hash stands for the digest. */
  ghost predicate HashedAs(d: Datastore, ignored: set<Var>, lookup: map<Var, Option<string>>, hash: string -> string,
                           task: Var, taskdeps: seq<Var>, basehash: string) {
    && task in lookup && (forall v :: v in taskdeps ==> v in lookup)
    && Ascending(taskdeps)
    && (forall v :: v in taskdeps <==> Reaches(d, ignored, task, v))
    && basehash == hash(BaseText(lookup, task, taskdeps))
  }

  /** One task: its worklist, its sorted dependencies, its base hash. */
  method HashTask(d: Datastore, ignored: set<Var>, gendeps0: map<Var, set<Var>>, lookup: map<Var, Option<string>>,
      hash: string -> string,
                  task: Var, ghost full: map<Var, set<Var>>, ghost touched0: set<Var>)
    returns (gendeps: map<Var, set<Var>>, alldeps: seq<Var>, digest: string, ghost touched: set<Var>)
    requires Faithful(d, full, lookup) && Pruned(full, gendeps0, ignored, touched0)
    requires task in full && forall w :: Reaches(d, ignored, task, w) ==> w in full
    ensures touched0 <= touched && Pruned(full, gendeps, ignored, touched)
    ensures forall v :: v == task || Reaches(d, ignored, task, v) ==> v in touched
    ensures HashedAs(d, ignored, lookup, hash, task, alldeps, digest)
  {
    hide Reaches, Pruned, BaseText, Join;
    var data := if lookup[task].None? then [] else [lookup[task].value];
    assert forall v :: v in full ==> full[v] == d.refs(v);
    var seen;
    gendeps, seen, touched := Collect(d, ignored, task, gendeps0, full, touched0);
    alldeps := SortedSet(seen);
    assert forall v :: v in alldeps <==> v in Elems(alldeps);
    data := Append(lookup, task, data, alldeps);
    digest := hash(Join(data));
  }

  /** The identifiers of a recipe's tasks. */
  ghost function Tids(fn: string, tasks: set<Var>): set<string> {
    set t | t in tasks :: fn + ":" + t
  }

  lemma TidsPush(fn: string, tasks: seq<Var>, task: Var)
    ensures Tids(fn, Elems(tasks + [task])) == Tids(fn, Elems(tasks)) + {fn + ":" + task}
    ensures Tids(fn, Elems([])) == {}
  {
    ElemsPush(tasks, task);
  }

  /** The lists and base hashes of exactly these tasks have been written. */
  ghost predicate AllHashed(d: Datastore, ignored: set<Var>, lookup: map<Var, Option<string>>, fn: string,
      hash: string -> string,
                            tasks: seq<Var>, taskdeps: map<Var, seq<Var>>, basehash: map<string, string>) {
    && taskdeps.Keys == Elems(tasks) && basehash.Keys == Tids(fn, Elems(tasks))
    && forall task :: task in tasks ==>
         && task in taskdeps && fn + ":" + task in basehash
         && HashedAs(d, ignored, lookup, hash, task, taskdeps[task], basehash[fn + ":" + task])
  }

  lemma AllHashedPush(d: Datastore, ignored: set<Var>, lookup: map<Var, Option<string>>, fn: string,
      hash: string -> string,
                      tasks: seq<Var>, taskdeps: map<Var, seq<Var>>, basehash: map<string, string>, task: Var,
                          deps: seq<Var>, digest: string)
    requires AllHashed(d, ignored, lookup, fn, hash, tasks, taskdeps, basehash)
    requires HashedAs(d, ignored, lookup, hash, task, deps, digest)
    ensures AllHashed(d, ignored, lookup, fn, hash, tasks + [task], taskdeps[task := deps],
            basehash[fn + ":" + task := digest])
  {
    hide HashedAs, Tids;
    ElemsPush(tasks, task);
    TidsPush(fn, tasks, task);
    forall t | t in tasks && t != task ensures fn + ":" + t != fn + ":" + task {
      SameKey(fn, t, task);
    }
  }

  method GenerateDependencyHash(d: Datastore, ignored: set<Var>, gendeps0: map<Var, set<Var>>, lookup: map<Var,
      Option<string>>,
                                fn: string, hash: string -> string)
    returns (taskdeps: map<Var, seq<Var>>, basehash: map<string, string>, gendeps: map<Var, set<Var>>)
    requires Faithful(d, gendeps0, lookup) && Complete(d, ignored, gendeps0, |d.tasklist|)
    ensures AllHashed(d, ignored, lookup, fn, hash, d.tasklist, taskdeps, basehash)
    ensures gendeps.Keys == gendeps0.Keys
    ensures forall task, v :: task in d.tasklist && (v == task || Reaches(d, ignored, task, v)) ==>
              v in gendeps && gendeps[v] == Next(d, ignored, v)
  {
    hide Reaches, HashedAs, Pruned, AllHashed, Tids;
    taskdeps, basehash, gendeps := map[], map[], gendeps0;
    PrunedStart(gendeps0, ignored);
    NoneHashed(d, ignored, lookup, fn, hash);
    ghost var touched := {};
    for i := 0 to |d.tasklist|
      invariant AllHashed(d, ignored, lookup, fn, hash, d.tasklist[..i], taskdeps, basehash)
      invariant Pruned(gendeps0, gendeps, ignored, touched)
      invariant forall j, v :: 0 <= j < i && (v == d.tasklist[j] || Reaches(d, ignored, d.tasklist[j], v)) ==>
                v in touched
    {
      var task := d.tasklist[i];
      assert d.tasklist[..i + 1] == d.tasklist[..i] + [task];
      var alldeps, digest;
      gendeps, alldeps, digest, touched := HashTask(d, ignored, gendeps, lookup, hash, task, gendeps0, touched);
      AllHashedPush(d, ignored, lookup, fn, hash, d.tasklist[..i], taskdeps, basehash, task, alldeps, digest);
      basehash := basehash[fn + ":" + task := digest];
      taskdeps := taskdeps[task := alldeps];
    }
    assert d.tasklist[..|d.tasklist|] == d.tasklist;
    PrunedEnd(d, gendeps0, gendeps, ignored, touched);
  }

  lemma NoneHashed(d: Datastore, ignored: set<Var>, lookup: map<Var, Option<string>>, fn: string,
      hash: string -> string)
    ensures AllHashed(d, ignored, lookup, fn, hash, [], map[], map[])
  {
  }

  lemma PrunedStart(gendeps: map<Var, set<Var>>, ignored: set<Var>)
    ensures Pruned(gendeps, gendeps, ignored, {})
  {
  }

  lemma PrunedEnd(d: Datastore, gendeps0: map<Var, set<Var>>, gendeps: map<Var, set<Var>>, ignored: set<Var>,
      touched: set<Var>)
    requires Pruned(gendeps0, gendeps, ignored, touched)
    requires forall v :: v in gendeps0 ==> gendeps0[v] == d.refs(v)
    ensures gendeps.Keys == gendeps0.Keys
    ensures forall v :: v in touched ==> v in gendeps && gendeps[v] == Next(d, ignored, v)
  {
  }

  lemma SameKey(fn: string, a: string, b: string)
    ensures fn + ":" + a == fn + ":" + b ==> a == b
  {
    assert (fn + ":" + a)[|fn| + 1..] == a;
    assert (fn + ":" + b)[|fn| + 1..] == b;
  }

  lemma JoinPush(data: seq<string>, x: string)
    ensures Join(data + [x]) == Join(data) + x
  {
    assert (data + [x])[..|data|] == data;
  }

  lemma JoinEntry(data: seq<string>, lookup: map<Var, Option<string>>, dep: Var)
    requires dep in lookup
    ensures Join(data + [dep] + if lookup[dep].Some? then [lookup[dep].value] else []) ==
            Join(data) + DepText(lookup, dep)
  {
    hide Join;
    JoinPush(data, dep);
    if lookup[dep].Some? {
      JoinPush(data + [dep], lookup[dep].value);
      assert Join(data) + dep + lookup[dep].value == Join(data) + (dep + lookup[dep].value);
    } else {
      assert data + [dep] + [] == data + [dep] && dep + "" == dep;
    }
  }

  lemma JoinFirst(data: seq<string>, value: Option<string>)
    requires data == if value.None? then [] else [value.value]
    ensures Join(data) == value.GetOr("")
  {
    JoinPush([], value.GetOr(""));
    assert [] + data == data;
  }

  lemma TextStep(lookup: map<Var, Option<string>>, task: Var, deps: seq<Var>, j: nat)
    requires task in lookup && j < |deps| && forall v :: v in deps ==> v in lookup
    ensures forall v :: v in deps[..j + 1] ==> v in lookup
    ensures BaseText(lookup, task, deps[..j + 1]) == BaseText(lookup, task, deps[..j]) + DepText(lookup, deps[j])
  {
    assert deps[..j + 1][..j] == deps[..j];
  }

  /** The loop that lists each dependency's name and, if it has one, its value. */
  method Append(lookup: map<Var, Option<string>>, task: Var, data0: seq<string>, alldeps: seq<Var>)
      returns (data: seq<string>)
    requires task in lookup && forall v :: v in alldeps ==> v in lookup
    requires data0 == if lookup[task].None? then [] else [lookup[task].value]
    ensures Join(data) == BaseText(lookup, task, alldeps)
  {
    data := data0;
    JoinFirst(data, lookup[task]);
    assert Join(data) == BaseText(lookup, task, []);
    hide Join, BaseText, DepText;
    assert alldeps[..0] == [];
    for j := 0 to |alldeps|
      invariant forall v :: v in alldeps[..j] ==> v in lookup
      invariant Join(data) == BaseText(lookup, task, alldeps[..j])
    {
      var dep := alldeps[j];
      JoinEntry(data, lookup, dep);
      TextStep(lookup, task, alldeps, j);
      data := data + [dep];
      if lookup[dep].Some? {
        data := data + [lookup[dep].value];
      } else {
        assert data + [] == data;
      }
    }
    assert alldeps[..|alldeps|] == alldeps;
  }

  /**
   A task's dependency list and base hash do not depend on the other tasks, or on the order in which
   tasks are taken.
   */
  lemma OrderDoesNotMatter(d: Datastore, d': Datastore, ignored: set<Var>, lookup: map<Var, Option<string>>,
      lookup': map<Var, Option<string>>,
                           hash: string -> string, task: Var, deps: seq<Var>, deps': seq<Var>, h: string, h': string)
    requires forall v :: d'.refs(v) == d.refs(v)
    requires forall v :: d'.value(v) == d.value(v)
    requires forall v :: v in lookup ==> lookup[v] == d.value(v)
    requires forall v :: v in lookup' ==> lookup'[v] == d'.value(v)
    requires HashedAs(d, ignored, lookup, hash, task, deps, h) && HashedAs(d', ignored, lookup', hash, task, deps', h')
    ensures deps == deps' && h == h'
  {
    forall v ensures Reaches(d, ignored, task, v) <==> Reaches(d', ignored, task, v) {
      if Reaches(d, ignored, task, v) {
        SameReach(d, d', ignored, task, v);
      }
      if Reaches(d', ignored, task, v) {
        SameReach(d', d, ignored, task, v);
      }
    }
    assert forall v :: v in Elems(deps) <==> v in deps;
    assert forall v :: v in Elems(deps') <==> v in deps';
    AscendingUnique(deps, deps');
    SameText(lookup, lookup', task, deps);
  }

  lemma SameReach(d: Datastore, d': Datastore, ignored: set<Var>, v: Var, w: Var)
    requires forall x :: d'.refs(x) == d.refs(x)
    requires Reaches(d, ignored, v, w)
    ensures Reaches(d', ignored, v, w)
  {
    var p :| IsPath(d, ignored, p) && p[0] == v && p[|p| - 1] == w;
    forall i | 0 <= i < |p| - 1 ensures p[i + 1] in Next(d', ignored, p[i]) {
      assert p[i + 1] in Next(d, ignored, p[i]);
    }
    assert IsPath(d', ignored, p);
  }

  lemma {:induction false} SameText(lookup: map<Var, Option<string>>, lookup': map<Var, Option<string>>, task: Var,
      deps: seq<Var>)
    requires task in lookup && task in lookup' && lookup[task] == lookup'[task]
    requires forall v :: v in deps ==> v in lookup && v in lookup' && lookup[v] == lookup'[v]
    ensures BaseText(lookup, task, deps) == BaseText(lookup', task, deps)
  {
    if deps != [] {
      assert forall v :: v in deps[..|deps| - 1] ==> v in deps;
      SameText(lookup, lookup', task, deps[..|deps| - 1]);
    }
  }
}
