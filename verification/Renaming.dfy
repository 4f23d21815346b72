/** `renameVar` as values: what it makes of the store, when it comes to an end, and what is read then. */
module Renaming {
  import opened Collections
  import opened Strings
  import opened OverrideResolution
  import opened VariableView

  /** How a renaming ends: well, at an operator of the old syntax, with a `KeyError`, or at the recursion limit. */
  datatype End = Finished | Fatal | Missing | TooDeep

  /** Deferred operations are put behind those that are there already. */
  function Joint(was: map<Kind, seq<Deferred>>, more: map<Kind, seq<Deferred>>): map<Kind, seq<Deferred>> {
    map k | k in was.Keys + more.Keys :: (if k in was then was[k] else []) + (if k in more then more[k] else [])
  }

  ghost function WithMoreOps(w: View, v: Var, more: map<Kind, seq<Deferred>>): View {
    if more == map[] then w
    else w.(shown := w.shown[v := w.FlagsOf(v).(later := Joint(w.FlagsOf(v).later, more))])
  }

  /** The name it is given the value of key, and then the operations that are deferred on key. */
  ghost function Carried(w: View, key: Var, newkey: Var): View {
    var value := Local(w.FlagsOf(key), false);
    var given := if value.Some? then Assigned(w, newkey, value.value, true, []) else w;
    WithMoreOps(given, newkey, given.FlagsOf(key).later)
  }

  ghost function Emptied(w: View, s: Var): View {
    w.(table := w.table[s := []])
  }

  ghost function WithPair(w: View, s: Var, p: Pair): View
    requires s in w.table
  {
    w.(table := w.table[s := w.table[s] + [p]])
  }

  /** What a renaming leaves, however it ends; depth is how many calls may still be nested. */
  ghost function Renamed(w: View, key: Var, newkey: Var, depth: nat): (View, End)
    decreases depth, 2, 0
  {
    if key == newkey then (w, Finished)
    else if depth == 0 then (w, TooDeep)
    else if Local(w.FlagsOf(key), false).Some? && OldSyntax(newkey) then (w, Fatal)
    else Moved(Carried(w, key, newkey), key, newkey, Local(w.FlagsOf(key), false).None?, depth)
  }

  /** The second half: the names that override key are renamed, and key is deleted. */
  ghost function Moved(w: View, key: Var, newkey: Var, unset: bool, depth: nat): (View, End)
    requires depth > 0
    decreases depth, 1, 0
  {
    var b := if key in w.table then AllRenamed(Emptied(w, newkey), key, newkey, w.table[key], depth) else (w, Finished);
    if b.1 != Finished then b else (Deleted(Relisted(b.0, newkey, unset), key), Finished)
  }

  /** A name that was given no value is listed with those it overrides at the end. */
  ghost function Relisted(w: View, newkey: Var, unset: bool): View {
    if ':' in newkey && unset then w.(table := Registered(w.table, newkey)) else w
  }

  /** The names that override key, each renamed in its turn. */
  ghost function AllRenamed(w: View, key: Var, newkey: Var, pairs: seq<Pair>, depth: nat): (View, End)
    requires depth > 0
    decreases depth, 0, |pairs|
  {
    if pairs == [] then (w, Finished)
    else if newkey !in w.table then (w, Missing)
    else
      var v := Replaced(pairs[0].0, key, newkey);
      var b := Renamed(WithPair(w, newkey, (v, pairs[0].1)), pairs[0].0, v, depth - 1);
      if b.1 != Finished then b else AllRenamed(b.0, key, newkey, pairs[1..], depth)
  }

  // ---------- operations are carried over one kind at a time ----------

  /** Those of the deferred operations whose kinds are listed. */
  ghost function Part(more: map<Kind, seq<Deferred>>, kinds: seq<Kind>): map<Kind, seq<Deferred>> {
    map k | k in more && k in kinds :: more[k]
  }

  lemma PartPush(more: map<Kind, seq<Deferred>>, kinds: seq<Kind>, k: Kind)
    requires k in more && k !in kinds
    ensures Part(more, kinds + [k]) == Part(more, kinds)[k := more[k]] && k !in Part(more, kinds)
  {
  }

  lemma AllParts(more: map<Kind, seq<Deferred>>, kinds: seq<Kind>)
    requires Elems(kinds) == more.Keys
    ensures Part(more, kinds) == more
  {
    assert forall k :: k in more <==> k in Elems(kinds);
  }

  lemma NoMoreOps(w: View, v: Var, more: map<Kind, seq<Deferred>>)
    ensures WithMoreOps(w, v, Part(more, [])) == w
  {
    assert Part(more, []) == map[];
  }

  lemma OneMoreOp(w: View, v: Var, more: map<Kind, seq<Deferred>>, kinds: seq<Kind>, k: Kind)
    requires k in more && k !in kinds
    ensures var u := WithMoreOps(w, v, Part(more, kinds));
            WithMoreOps(w, v, Part(more, kinds + [k])) == WithOps(u, v, k, u.FlagsOf(v).Ops(k) + more[k])
  {
    hide Joint, Part;
    var f, part := w.FlagsOf(v), Part(more, kinds);
    PartPush(more, kinds, k);
    JointPush(f.later, part, k, more[k]);
    JointNone(f.later);
    var u := WithMoreOps(w, v, part);
    assert u.FlagsOf(v) == f.(later := Joint(f.later, part));
    assert u.FlagsOf(v).Ops(k) == f.Ops(k);
    var g := f.(later := Joint(f.later, part)[k := f.Ops(k) + more[k]]);
    assert w.shown[v := u.FlagsOf(v)][v := g] == w.shown[v := g];
  }

  lemma JointPush(was: map<Kind, seq<Deferred>>, part: map<Kind, seq<Deferred>>, k: Kind, ops: seq<Deferred>)
    requires k !in part
    ensures Joint(was, part[k := ops]) == Joint(was, part)[k := (if k in was then was[k] else []) + ops]
    ensures k in was <==> k in Joint(was, part)
    ensures k in was ==> Joint(was, part)[k] == was[k]
  {
    assert k in was ==> was[k] + [] == was[k];
  }

  lemma JointNone(was: map<Kind, seq<Deferred>>)
    ensures Joint(was, map[]) == was
  {
    assert forall k :: k in was ==> was[k] + [] == was[k];
  }

  // ---------- what its steps do to the table ----------

  lemma {:induction false} ParseBase(v: Var, i: nat)
    requires i <= |v|
    ensures ParseFrom(v, i).Some? ==> ParseFrom(v, i).value.base <= v
    decreases |v| - i
  {
    hide Keyword, AfterKeyword;
    if i < |v| {
      ParseBase(v, i + 1);
    }
  }

  /** What is listed under s stays listed. */
  ghost predicate Keeps(t: Table, u: Table, s: Var) {
    s in t ==> s in u && forall p :: p in t[s] ==> p in u[s]
  }

  /** The table after key's value was carried over is that before, with one name listed or none. */
  ghost predicate ListsAtMost(t: Table, u: Table, newkey: Var) {
    u == t || exists v :: v <= newkey && u == Registered(t, v)
  }

  lemma CarriedTable(w: View, key: Var, newkey: Var)
    ensures ListsAtMost(w.table, Carried(w, key, newkey).table, newkey)
  {
    hide Registered, Local, ParseFrom, Joint;
    ParseBase(newkey, 0);
    var value := Local(w.FlagsOf(key), false);
    if value.Some? && ParseKeyword(newkey).Some? {
      assert Carried(w, key, newkey).table == Registered(w.table, ParseKeyword(newkey).value.base);
    }
  }

  lemma RegisteredKeeps(t: Table, v: Var)
    ensures forall s :: Keeps(t, Registered(t, v), s)
  {
    hide IsSpot, Tail;
  }

  lemma CarriedKeeps(w: View, key: Var, newkey: Var)
    ensures forall s :: Keeps(w.table, Carried(w, key, newkey).table, s)
  {
    hide Registered, Carried;
    CarriedTable(w, key, newkey);
    forall v ensures forall s :: Keeps(w.table, Registered(w.table, v), s) {
      RegisteredKeeps(w.table, v);
    }
  }

  lemma CarriedNested(w: View, key: Var, newkey: Var)
    requires Nested(w.table)
    ensures Nested(Carried(w, key, newkey).table)
  {
    hide Registered, Carried, Nested;
    CarriedTable(w, key, newkey);
    forall v ensures Nested(Registered(w.table, v)) {
      NestedRegistered(w.table, v);
    }
  }

  // ---------- names stay overridden by longer ones ----------

  lemma WithPairNested(w: View, key: Var, newkey: Var, p: Pair)
    requires Nested(w.table) && newkey in w.table && newkey != "" && key < p.0
    ensures Replaced(p.0, key, newkey) != "" && Nested(WithPair(w, newkey, (Replaced(p.0, key, newkey), p.1)).table)
  {
    hide Replaced;
    ReplacedPrefix(p.0, key, newkey);
  }

  lemma {:induction false} RenamedNested(w: View, key: Var, newkey: Var, depth: nat)
    requires Nested(w.table) && newkey != ""
    ensures Nested(Renamed(w, key, newkey, depth).0.table)
    decreases depth, 1, 0
  {
    hide Registered, Unregistered, Carried, Nested, Local, OldSyntax;
    if key != newkey && depth > 0 && !(Local(w.FlagsOf(key), false).Some? && OldSyntax(newkey)) {
      var a := Carried(w, key, newkey);
      CarriedNested(w, key, newkey);
      var b := a;
      if key in a.table {
        NestedPairs(a.table, key);
        NestedEmptied(a, newkey);
        AllRenamedNested(Emptied(a, newkey), key, newkey, a.table[key], depth);
        b := AllRenamed(Emptied(a, newkey), key, newkey, a.table[key], depth).0;
      }
      NestedRegistered(b.table, newkey);
      var c := Relisted(b, newkey, Local(w.FlagsOf(key), false).None?);
      NestedWithout(c.table, key);
      NestedUnregistered(c.table - {key}, key);
    }
  }

  lemma NestedPairs(t: Table, key: Var)
    requires Nested(t) && key in t
    ensures forall p :: p in t[key] ==> key < p.0
  {
  }

  lemma NestedEmptied(w: View, s: Var)
    requires Nested(w.table)
    ensures Nested(Emptied(w, s).table)
  {
  }

  lemma {:induction false} AllRenamedNested(w: View, key: Var, newkey: Var, pairs: seq<Pair>, depth: nat)
    requires depth > 0 && Nested(w.table) && newkey != "" && forall p :: p in pairs ==> key < p.0
    ensures Nested(AllRenamed(w, key, newkey, pairs, depth).0.table)
    decreases depth, 0, |pairs|
  {
    hide Nested, Replaced, Renamed, WithPair;
    if pairs != [] && newkey in w.table {
      var v := Replaced(pairs[0].0, key, newkey);
      assert pairs[0] in pairs && forall p :: p in pairs[1..] ==> p in pairs;
      WithPairNested(w, key, newkey, pairs[0]);
      RenamedNested(WithPair(w, newkey, (v, pairs[0].1)), pairs[0].0, v, depth - 1);
      AllRenamedNested(Renamed(WithPair(w, newkey, (v, pairs[0].1)), pairs[0].0, v, depth - 1).0, key, newkey,
          pairs[1..], depth);
    }
  }

  // ---------- renamings that end ----------

  /** Names listed under one that begins with `root` are longer, and of at most n characters. */
  ghost predicate Bounded(t: Table, root: Var, n: nat) {
    forall s, p :: s in t && root <= s && p in t[s] ==> s < p.0 && |p.0| <= n
  }

  /** Those parts of the name that begin with `root` have at most n characters. */
  ghost predicate Short(name: Var, root: Var, n: nat) {
    forall v: Var :: v <= name && root <= v ==> |v| <= n
  }

  /** The renaming leads away from the names that begin with `root`, or to shorter ones. */
  ghost predicate Away(root: Var, key: Var, newkey: Var) {
    root != "" && root <= key && (|newkey| < |key| || (!(root <= newkey) && !(newkey <= root)))
  }

  lemma AwayFacts(root: Var, key: Var, newkey: Var, n: nat)
    requires Away(root, key, newkey) && |key| <= n
    ensures root <= key && key != newkey && !(key <= newkey) && Short(newkey, root, n)
  {
  }

  /** The renamings that follow from it lead away as well. */
  lemma AwayNext(root: Var, key: Var, newkey: Var, v: Var)
    requires Away(root, key, newkey) && key < v
    ensures Away(root, v, Replaced(v, key, newkey)) && !(v <= newkey)
    ensures root <= newkey ==> newkey < Replaced(v, key, newkey) && |Replaced(v, key, newkey)| < |v|
  {
    hide Replaced;
    ReplacedPrefix(v, key, newkey);
    var put := Replaced(v, key, newkey);
    if !(root <= newkey) && !(newkey <= root) {
      if |newkey| <= |root| {
        assert root <= put ==> newkey <= root;
      } else {
        assert root <= put ==> root <= newkey;
      }
    }
  }

  /** The renaming of an overriding name leads away, and lists no name that would not stay so. */
  ghost predicate LeadsAway(root: Var, key: Var, newkey: Var, v: Var, n: nat) {
    var put := Replaced(v, key, newkey);
    Away(root, v, put) && !(v <= newkey) && key < v && |v| <= n && (root <= newkey ==> newkey < put && |put| <= n)
  }

  lemma RegisteredBounded(t: Table, v: Var, root: Var, n: nat)
    requires Bounded(t, root, n) && (root <= v ==> |v| <= n)
    ensures Bounded(Registered(t, v), root, n)
  {
    hide IsSpot, Tail;
  }

  lemma CarriedBounded(w: View, key: Var, newkey: Var, root: Var, n: nat)
    requires Bounded(w.table, root, n) && Short(newkey, root, n)
    ensures Bounded(Carried(w, key, newkey).table, root, n)
  {
    hide Registered, Carried, Bounded;
    CarriedTable(w, key, newkey);
    forall v | v <= newkey ensures Bounded(Registered(w.table, v), root, n) {
      RegisteredBounded(w.table, v, root, n);
    }
  }

  lemma DeletedBounded(w: View, v: Var, root: Var, n: nat)
    requires Bounded(w.table, root, n)
    ensures Bounded(Deleted(w, v).table, root, n) && Deleted(w, v).table.Keys == w.table.Keys - {v}
  {
    UnregisteredSubset(w.table - {v}, v);
    hide Unregistered;
  }

  /** What is true of the end of each renaming that leads away. */
  ghost predicate EndsWell(w: View, key: Var, r: (View, End), root: Var, n: nat) {
    && (r.1 == Finished || r.1 == Fatal)
    && Bounded(r.0.table, root, n)
    && forall s :: s in w.table && !(key <= s) ==> s in r.0.table
  }

  lemma {:induction false} AwayEnds(w: View, key: Var, newkey: Var, depth: nat, root: Var, n: nat)
    requires Away(root, key, newkey) && Bounded(w.table, root, n) && |key| <= n < depth + |key|
    ensures EndsWell(w, key, Renamed(w, key, newkey, depth), root, n)
    decreases depth, 1, 0
  {
    hide Registered, Unregistered, Carried, Bounded, Local, OldSyntax, Away, Keeps, Deleted, Short;
    AwayFacts(root, key, newkey, n);
    if !(Local(w.FlagsOf(key), false).Some? && OldSyntax(newkey)) {
      var a := Carried(w, key, newkey);
      CarriedBounded(w, key, newkey, root, n);
      CarriedKeys(w, key, newkey);
      var b := (a, Finished);
      if key in a.table {
        EmptiedBounded(a, key, newkey, root, n);
        forall p | p in a.table[key] ensures LeadsAway(root, key, newkey, p.0, n) {
          AwayNext(root, key, newkey, p.0);
        }
        AllAwayEnd(Emptied(a, newkey), key, newkey, a.table[key], depth, root, n);
        b := AllRenamed(Emptied(a, newkey), key, newkey, a.table[key], depth);
      }
      RelistedBounded(b.0, newkey, Local(w.FlagsOf(key), false).None?, root, n);
      DeletedBounded(Relisted(b.0, newkey, Local(w.FlagsOf(key), false).None?), key, root, n);
    }
  }

  lemma CarriedKeys(w: View, key: Var, newkey: Var)
    ensures w.table.Keys <= Carried(w, key, newkey).table.Keys
  {
    hide Carried;
    CarriedKeeps(w, key, newkey);
    forall s | s in w.table ensures s in Carried(w, key, newkey).table {
      assert Keeps(w.table, Carried(w, key, newkey).table, s);
    }
  }

  lemma EmptiedBounded(a: View, key: Var, newkey: Var, root: Var, n: nat)
    requires Bounded(a.table, root, n) && key in a.table && root <= key
    ensures Bounded(Emptied(a, newkey).table, root, n) && forall p :: p in a.table[key] ==> key < p.0 && |p.0| <= n
  {
  }

  lemma RelistedBounded(w: View, newkey: Var, unset: bool, root: Var, n: nat)
    requires Bounded(w.table, root, n) && Short(newkey, root, n)
    ensures Bounded(Relisted(w, newkey, unset).table, root, n) && w.table.Keys <= Relisted(w, newkey, unset).table.Keys
  {
    hide Registered, Bounded;
    RegisteredBounded(w.table, newkey, root, n);
    RegisteredKeeps(w.table, newkey);
    forall s | s in w.table ensures s in Registered(w.table, newkey) {
      assert Keeps(w.table, Registered(w.table, newkey), s);
    }
  }

  lemma WithPairBounded(w: View, key: Var, newkey: Var, p: Pair, root: Var, n: nat)
    requires LeadsAway(root, key, newkey, p.0, n) && Bounded(w.table, root, n) && newkey in w.table
    ensures Bounded(WithPair(w, newkey, (Replaced(p.0, key, newkey), p.1)).table, root, n)
  {
    hide Replaced, Away;
  }

  lemma {:induction false} AllAwayEnd(w: View, key: Var, newkey: Var, pairs: seq<Pair>, depth: nat, root: Var, n: nat)
    requires Bounded(w.table, root, n) && n < depth + |key| && depth > 0 && newkey in w.table
    requires forall p :: p in pairs ==> LeadsAway(root, key, newkey, p.0, n)
    ensures EndsWell(w, key, AllRenamed(w, key, newkey, pairs, depth), root, n)
    decreases depth, 0, |pairs|
  {
    hide Bounded, Replaced, Renamed, Away;
    if pairs != [] {
      var v := Replaced(pairs[0].0, key, newkey);
      assert pairs[0] in pairs && forall p :: p in pairs[1..] ==> p in pairs;
      var e := WithPair(w, newkey, (v, pairs[0].1));
      WithPairBounded(w, key, newkey, pairs[0], root, n);
      AwayEnds(e, pairs[0].0, v, depth - 1, root, n);
      var b := Renamed(e, pairs[0].0, v, depth - 1);
      if b.1 == Finished {
        AllAwayEnd(b.0, key, newkey, pairs[1..], depth, root, n);
      }
    }
  }

  /** The new name goes on from the old one, with something other than a colon. */
  ghost predicate Longer(key: Var, newkey: Var) {
    key < newkey && newkey[|key|] != ':'
  }

  lemma LongerLeadsAway(key: Var, newkey: Var, v: Var, n: nat)
    requires Longer(key, newkey) && key + ":" <= v && key < v && |v| <= n
    ensures LeadsAway(key + ":", key, newkey, v, n)
  {
    hide Replaced;
    ReplacedPrefix(v, key, newkey);
    var put, root := Replaced(v, key, newkey), key + ":";
    assert put[|key|] == newkey[|key|] && root[|key|] == ':' && v[|key|] == ':';
  }

  /** Giving the new name the old one's value does not list it, or its base, as overriding the old one. */
  ghost predicate NotListed(key: Var, newkey: Var) {
    ParseKeyword(newkey).Some? ==> |ParseKeyword(newkey).value.base| != |key| + 1
  }

  lemma CarriedLonger(w: View, key: Var, newkey: Var)
    requires Longer(key, newkey) && NotListed(key, newkey)
    ensures var a := Carried(w, key, newkey);
            (key in a.table <==> key in w.table) && (key in w.table ==> a.table[key] == w.table[key])
  {
    hide Local, ParseFrom, Joint, Listing;
    ParseBase(newkey, 0);
    forall v | v <= newkey && (':' in v || |v| != |key| + 1) ensures !IsSpot(v, |key|, LooksLikeOverride) {
    }
    hide IsSpot, Tail;
  }

  /**
   Renaming a variable comes to an end, at a depth that the longest overriding name bounds, and
   nothing it looks for is missing: if the new name does not begin with the old one, or goes on
   from it with something other than a colon, and whatever overrides the old name has a colon there.
   */
  lemma RenamingEnds(w: View, key: Var, newkey: Var, n: nat, depth: nat)
    requires Nested(w.table) && |key| <= n < depth + |key|
    requires forall s, p :: s in w.table && key <= s && p in w.table[s] ==> |p.0| <= n
    requires key <= newkey ==>
               && Longer(key, newkey) && NotListed(key, newkey)
               && (key in w.table ==> forall p :: p in w.table[key] ==> key + ":" <= p.0)
    ensures var end := Renamed(w, key, newkey, depth).1; end == Finished || end == Fatal
  {
    if key <= newkey {
      LongerEnds(w, key, newkey, n, depth);
    } else {
      if |newkey| >= |key| {
        assert newkey <= key ==> newkey == key;
      }
      assert Bounded(w.table, key, n);
      AwayEnds(w, key, newkey, depth, key, n);
    }
  }

  lemma LongerEnds(w: View, key: Var, newkey: Var, n: nat, depth: nat)
    requires Nested(w.table) && Longer(key, newkey) && NotListed(key, newkey) && |key| <= n < depth + |key|
    requires forall s, p :: s in w.table && key <= s && p in w.table[s] ==> |p.0| <= n
    requires key in w.table ==> forall p :: p in w.table[key] ==> key + ":" <= p.0
    ensures var end := Renamed(w, key, newkey, depth).1; end == Finished || end == Fatal
  {
    hide Registered, Unregistered, Carried, Local, OldSyntax, Replaced, NotListed;
    var root := key + ":";
    assert Bounded(w.table, root, n) by {
      forall s, p | s in w.table && root <= s && p in w.table[s] ensures s < p.0 && |p.0| <= n {
        assert key <= s;
      }
    }
    assert Short(newkey, root, n) by {
      assert root[|key|] == ':';
    }
    hide Short;
    CarriedBounded(w, key, newkey, root, n);
    CarriedLonger(w, key, newkey);
    var a := Carried(w, key, newkey);
    assert Bounded(Emptied(a, newkey).table, root, n);
    if key in a.table {
      forall p | p in a.table[key] ensures LeadsAway(root, key, newkey, p.0, n) {
        LongerLeadsAway(key, newkey, p.0, n);
      }
      AllAwayEnd(Emptied(a, newkey), key, newkey, a.table[key], depth, root, n);
    }
  }

  // ---------- renamings that do not ----------

  ghost predicate Lists(t: Table, s: Var, v: Var) {
    s in t && exists p :: p in t[s] && p.0 == v
  }

  lemma ListsKept(t: Table, u: Table, s: Var, v: Var)
    requires Keeps(t, u, s) && Lists(t, s, v)
    ensures Lists(u, s, v)
  {
  }

  /** A renaming to a name that the old one lists repeats itself with that name, and so on. */
  lemma {:induction false} ListedNeverEnds(w: View, key: Var, newkey: Var, depth: nat)
    requires Nested(w.table) && Lists(Carried(w, key, newkey).table, key, newkey)
    ensures Renamed(w, key, newkey, depth).1 != Finished
    decreases depth, 1, 0
  {
    hide Registered, Carried, Nested, Local, OldSyntax, Replaced;
    CarriedNested(w, key, newkey);
    var a := Carried(w, key, newkey);
    NestedPairs(a.table, key);
    if depth > 0 {
      NestedEmptied(a, newkey);
      AllNeverEnd(Emptied(a, newkey), key, newkey, a.table[key], depth);
    }
  }

  lemma {:induction false} AllNeverEnd(w: View, key: Var, newkey: Var, pairs: seq<Pair>, depth: nat)
    requires depth > 0 && Nested(w.table) && key < newkey
    requires (forall p :: p in pairs ==> key < p.0) && exists p :: p in pairs && p.0 == newkey
    ensures AllRenamed(w, key, newkey, pairs, depth).1 != Finished
    decreases depth, 0, |pairs|
  {
    hide Registered, Carried, Nested, Replaced, Renamed;
    var p := pairs[0];
    if newkey in w.table {
      var v := Replaced(p.0, key, newkey);
      var e := WithPair(w, newkey, (v, p.1));
      assert p in pairs && forall q :: q in pairs[1..] ==> q in pairs;
      WithPairNested(w, key, newkey, p);
      if p.0 == newkey {
        CarriedKeeps(e, newkey, v);
        assert (v, p.1) in e.table[newkey];
        ListsKept(e.table, Carried(e, newkey, v).table, newkey, v);
        ListedNeverEnds(e, newkey, v, depth - 1);
      } else {
        RenamedNested(e, p.0, v, depth - 1);
        var q :| q in pairs && q.0 == newkey;
        assert q in pairs[1..];
        AllNeverEnd(Renamed(e, p.0, v, depth - 1).0, key, newkey, pairs[1..], depth);
      }
    }
  }

  /**
   Renaming a variable that nothing overrides comes to a good end exactly if it has no value or the
   new name would not be listed as overriding it: no recursion limit is enough for the others.
   */
  lemma EndsUnlessSelfOverriding(w: View, key: Var, newkey: Var, depth: nat)
    requires Nested(w.table) && key !in w.table && key != newkey && ParseKeyword(newkey).None? && !OldSyntax(newkey) &&
             depth > 0
    ensures Renamed(w, key, newkey, depth).1 == Finished <==>
            Local(w.FlagsOf(key), false).None? || ':' !in newkey || key !in Registered(map[], newkey)
  {
    var value := Local(w.FlagsOf(key), false);
    hide Nested, Local, ParseKeyword, OldSyntax, IsSpot, Tail, AllRenamed;
    var a := Carried(w, key, newkey);
    if value.Some? && ':' in newkey {
      assert a.table == Registered(w.table, newkey);
      assert key in a.table <==> key in Registered(map[], newkey);
      if key in a.table {
        var p := (newkey, Tail(newkey, |key|));
        assert p in a.table[key];
        ListedNeverEnds(w, key, newkey, depth);
      }
    } else {
      assert a.table == w.table;
    }
  }

  /** "A", and what one gets from it by putting ":o" behind it any number of times. */
  ghost predicate Tower(v: Var) {
    v != "" && v[0] == 'A' && forall i :: 0 < i < |v| ==> v[i] == ':' || v[i] == 'o'
  }

  /** Of these characters no operator can be made. */
  ghost predicate Harmless(v: Var) {
    forall i :: 0 <= i < |v| ==> v[i] in {'A', 'B', ':', 'o', 'x', 'y'}
  }

  lemma HarmlessFrom(v: Var, i: nat)
    requires Harmless(v) && i <= |v|
    ensures ParseFrom(v, i).None?
    decreases |v| - i
  {
    forall k: Kind ensures !(Keyword(k) <= v[i..]) {
      assert |Keyword(k)| > 1 && Keyword(k)[1] in {'a', 'p', 'r'};
      if |v[i..]| > 1 {
        assert v[i..][1] == v[i + 1];
      }
    }
    hide Keyword;
    if i < |v| {
      HarmlessFrom(v, i + 1);
    }
  }

  lemma HarmlessName(v: Var)
    requires Harmless(v)
    ensures ParseKeyword(v).None? && !OldSyntax(v)
  {
    HarmlessFrom(v, 0);
    assert '_' !in v;
    forall x | x in {"_append", "_prepend", "_remove"} ensures !Contains(v, x) {
      assert x[0] == '_';
      if Contains(v, x) {
        ContainsChars(v, x);
      }
    }
  }

  lemma TowerGrows(v: Var, name: Var)
    requires Tower(v) && name == v + ":o"
    ensures Tower(name) && Harmless(name) && name != v && ':' in name
    ensures Replaced(name, v, name) == name + ":o"
  {
    assert name[|v|] == ':' && name[|v| + 1] == 'o';
    hide Replaced;
    NotFound("o", v);
    assert ":" + "o" == ":o";
    ReplacedAbsent(":o", v, name);
    assert name[|v|..] == ":o" && v <= name;
    assert Replaced(name, v, name) == name + Replaced(name[|v|..], v, name) by {
      ReplacedAtStart(name, v, name);
    }
  }

  lemma ReplacedAtStart(s: string, part: string, put: string)
    requires part != "" && part <= s
    ensures Replaced(s, part, put) == put + Replaced(s[|part|..], part, put)
  {
  }

  lemma TowerListed(t: Table, v: Var, name: Var)
    requires name == v + ":o" && (v in t ==> t[v] == [(name, "o")])
    ensures v in Registered(t, name) && Registered(t, name)[v] == [(name, "o")]
  {
    hide Registered;
    OverrideListed(t, v, "o");
    assert v + ":" + "o" == name;
  }

  /** "A" renamed to "A:o", then "A:o" to "A:o:o": any limit on nested calls is reached. */
  lemma {:induction false} RenamingRunsOn(w: View, v: Var, name: Var, depth: nat)
    requires Tower(v) && name == v + ":o" && Local(w.FlagsOf(v), false).Some?
    requires v in w.table ==> w.table[v] == [(name, "o")]
    ensures Renamed(w, v, name, depth).1 == TooDeep
    decreases depth
  {
    hide Tower, Harmless, Registered, OldSyntax, ParseFrom, Replaced, Local, Carried;
    TowerGrows(v, name);
    if depth > 0 {
      HarmlessName(name);
      TowerListed(w.table, v, name);
      CarriedHasValue(w, v, name);
      var a := Carried(w, v, name);
      var next := name + ":o";
      var e := WithPair(Emptied(a, name), name, (next, "o"));
      assert e.table[name] == [(next, "o")];
      RenamingRunsOn(e, name, next, depth - 1);
      assert AllRenamed(Emptied(a, name), v, name, [(name, "o")], depth).1 == TooDeep;
    }
  }

  lemma CarriedHasValue(w: View, key: Var, newkey: Var)
    requires ParseKeyword(newkey).None? && Local(w.FlagsOf(key), false).Some?
    ensures var a := Carried(w, key, newkey);
            Local(a.FlagsOf(newkey), false) == Local(w.FlagsOf(key), false) &&
                a.table == if ':' in newkey then Registered(w.table, newkey) else w.table
  {
    hide Registered;
  }

  // ---------- what is read after a renaming ----------

  /** Both give the same value and the same deferred operations. */
  ghost predicate Alike(f: Flags, g: Flags) {
    Local(f, false) == Local(g, false) && forall k :: f.Ops(k) == g.Ops(k)
  }

  /** A name that can be given a value, and shows nothing so far. */
  ghost predicate Free(w: View, v: Var) {
    ParseKeyword(v).None? && !OldSyntax(v) && w.FlagsOf(v) == NO_FLAGS && v !in w.table
  }

  lemma CarriedToFree(w: View, key: Var, newkey: Var)
    requires key != newkey && Free(w, newkey)
    ensures var a := Carried(w, key, newkey);
            && Alike(a.FlagsOf(newkey), w.FlagsOf(key)) && (forall s :: s != newkey ==> a.FlagsOf(s) == w.FlagsOf(s))
            && a.table == if Local(w.FlagsOf(key), false).Some? && ':' in newkey then Registered(w.table, newkey)
               else w.table
  {
    hide Registered;
  }

  lemma LeafRenamed(w: View, key: Var, newkey: Var, depth: nat)
    requires depth > 0 && key != newkey && Free(w, newkey) && ':' in newkey && key !in Registered(w.table, newkey)
    ensures var (u, end) := Renamed(w, key, newkey, depth);
            && end == Finished && Alike(u.FlagsOf(newkey), w.FlagsOf(key)) && u.FlagsOf(key) == NO_FLAGS
            && (forall s :: s != newkey && s != key ==> u.FlagsOf(s) == w.FlagsOf(s))
            && u.table == if ':' in key then Unregistered(Registered(w.table, newkey), key)
               else Registered(w.table, newkey)
  {
    hide Registered, Unregistered, Alike, Local, OldSyntax, ParseKeyword, Carried;
    CarriedToFree(w, key, newkey);
    RegisteredKeeps(w.table, newkey);
    assert Keeps(w.table, Registered(w.table, newkey), key);
    var t := Registered(w.table, newkey);
    assert t - {key} == t;
  }

  /** Neither begins with the other. */
  ghost predicate Unrelated(a: Var, b: Var) {
    !(a <= b) && !(b <= a)
  }

  /** Neither is the other, nor the other with a colon and more behind it. */
  ghost predicate Apart(key: Var, newkey: Var) {
    Unrelated(key + ":", newkey + ":")
  }

  lemma UnrelatedNames(a: Var, b: Var, s: string, t: string)
    requires Unrelated(a, b)
    ensures Unrelated(a + s, b + t)
  {
    if |a| <= |b| {
      Differ(a, b);
    } else {
      Differ(b, a);
    }
    var i :| 0 <= i < |a| && i < |b| && a[i] != b[i];
    assert (a + s)[i] != (b + t)[i];
  }

  lemma Differ(a: Var, b: Var)
    requires |a| <= |b| && !(a <= b)
    ensures exists i :: 0 <= i < |a| && a[i] != b[i]
  {
    assert a != b[..|a|];
  }

  /** A name with further components is listed under names it goes on from at a colon, and on one list already. */
  lemma RegisteredOver(t: Table, v: Var, o: string)
    ensures var r := Registered(t, Over(v, o));
            && (forall s :: s in r ==> s in t || s + ":" <= Over(v, o))
            && (v in t && (Over(v, o), o) in t[v] ==> v in r && r[v] == t[v])
  {
    var name := Over(v, o);
    assert name[|v|] == ':' && name[|v| + 1..] == o && name[..|v|] == v;
    assert Tail(name, |v|) == o;
    forall n: nat | n < |name| && IsSpot(name, n, LooksLikeOverride) ensures name[..n] + ":" <= name {
      assert name[..n] + ":" == name[..n + 1];
    }
    hide IsSpot, Tail;
  }

  /** Names it does not go on from at a colon are left alone. */
  lemma RegisteredApart(t: Table, v: Var)
    requires ':' in v
    ensures forall s :: s in Registered(t, v) ==> s in t || s + ":" <= v
    ensures forall s :: s in t && !(s + ":" <= v) ==> s in Registered(t, v) && Registered(t, v)[s] == t[s]
  {
    SpotsGoOn(v);
    hide Spots, Tail;
  }

  /** Each name that v overrides is followed by a colon in it. */
  lemma SpotsGoOn(v: Var)
    requires ':' in v
    ensures forall s :: s in Spots(v, 0) ==> s + ":" <= v
  {
    forall n: nat | n < |v| && IsSpot(v, n, LooksLikeOverride) ensures v[..n] + ":" <= v {
      assert v[..n] + ":" == v[..n + 1];
    }
    hide IsSpot;
  }

  lemma UnregisteredApart(t: Table, v: Var, s: Var)
    requires ':' in v && !(s + ":" <= v) && s in t
    ensures Unregistered(t, v)[s] == t[s]
  {
    if |s| < |v| && s == v[..|s|] {
      assert s + [v[|s|]] == v[..|s| + 1];
    }
  }

  /** The name that overrides v while o is active. */
  function Over(v: Var, o: string): Var {
    v + ":" + o
  }

  lemma LeafNames(key: Var, newkey: Var, o: string)
    requires Apart(key, newkey)
    ensures var a, b := Over(key, o), Over(newkey, o);
            !(a + ":" <= b) && !(newkey + ":" <= a) && ':' in a && ':' in b && a != b
  {
    UnrelatedNames(key + ":", newkey + ":", o, o);
    UnrelatedNames(key + ":", newkey + ":", o, "");
    assert key + ":" + o == Over(key, o) && newkey + ":" + o == Over(newkey, o);
    assert newkey + ":" + "" == newkey + ":";
    assert Over(key, o)[|key|] == ':' && Over(newkey, o)[|newkey|] == ':';
    assert Over(key, o) <= Over(key, o) + ":";
  }

  /** One turn of the loop: key's name with an override becomes newkey's. */
  lemma LeafMoved(w: View, key: Var, newkey: Var, o: string, depth: nat)
    requires depth > 0 && Apart(key, newkey) && newkey in w.table && (Over(newkey, o), o) in w.table[newkey]
    requires Free(w, Over(newkey, o)) && Over(key, o) !in w.table
    ensures var (u, end) := Renamed(w, Over(key, o), Over(newkey, o), depth);
            && end == Finished && Alike(u.FlagsOf(Over(newkey, o)), w.FlagsOf(Over(key, o)))
            && (forall s :: s != Over(newkey, o) && s != Over(key, o) ==> u.FlagsOf(s) == w.FlagsOf(s))
            && newkey in u.table && u.table[newkey] == w.table[newkey]
            && (forall s :: s in u.table ==> s in w.table || s + ":" <= Over(newkey, o))
            && (Distinct(w.table) ==> Distinct(u.table))
  {
    RegisteredOver(w.table, newkey, o);
    LeafNames(key, newkey, o);
    hide Over, Apart, Distinct, Registered, Unregistered, Alike, OldSyntax, ParseKeyword, Renamed;
    var a, b := Over(key, o), Over(newkey, o);
    LeafRenamed(w, a, b, depth);
    UnregisteredSubset(Registered(w.table, b), a);
    UnregisteredApart(Registered(w.table, b), a, newkey);
    if Distinct(w.table) {
      DistinctRegistered(w.table, b);
      DistinctUnregistered(Registered(w.table, b), a);
    }
  }

  ghost function AllOver(v: Var, os: seq<string>): seq<Pair> {
    seq(|os|, i requires 0 <= i < |os| => (Over(v, os[i]), os[i]))
  }

  lemma ReplacedOver(key: Var, newkey: Var, o: string)
    requires !Contains(":" + o, key)
    ensures Replaced(Over(key, o), key, newkey) == Over(newkey, o)
  {
    hide Replaced;
    assert key != "" by {
      assert Contains(":" + o, "");
    }
    ReplacedAtStart(Over(key, o), key, newkey);
    assert Over(key, o)[|key|..] == ":" + o;
    ReplacedAbsent(":" + o, key, newkey);
  }

  /** The first n of the names that override key have been renamed, the others have not. */
  ghost predicate Halfway(w: View, u: View, key: Var, newkey: Var, os: seq<string>, n: nat) {
    && n <= |os| && newkey in u.table && u.table[newkey] == AllOver(newkey, os[..n]) &&
       u.FlagsOf(newkey) == w.FlagsOf(newkey)
    && (forall i :: 0 <= i < n ==>
       Alike(u.FlagsOf(Over(newkey, os[i])), w.FlagsOf(Over(key, os[i]))) && Over(newkey, os[i]) !in u.table)
    && (forall i :: n <= i < |os| ==> Untouched(w, u, key, newkey, os[i]))
  }

  ghost predicate Untouched(w: View, u: View, key: Var, newkey: Var, o: string) {
    u.FlagsOf(Over(key, o)) == w.FlagsOf(Over(key, o)) && Over(key, o) !in u.table && Free(u, Over(newkey, o))
  }

  /** Different overrides, none of which goes on from another, and in which key does not occur. */
  ghost predicate PlainOverrides(os: seq<string>, key: Var) {
    && NoDup(os) && (forall o :: o in os ==> !Contains(":" + o, key))
    && forall o, p :: o in os && p in os ==> !(o + ":" <= p)
  }

  lemma HalfwayNext(w: View, u: View, key: Var, newkey: Var, os: seq<string>, n: nat, depth: nat)
    requires Apart(key, newkey) && PlainOverrides(os, key) && n < |os| && Halfway(w, u, key, newkey, os, n) && depth > 0
    ensures Replaced(Over(key, os[n]), key, newkey) == Over(newkey, os[n])
    ensures var (x, end) := Renamed(WithPair(u, newkey, (Over(newkey, os[n]), os[n])), Over(key, os[n]),
            Over(newkey, os[n]), depth);
            end == Finished && Halfway(w, x, key, newkey, os, n + 1) && (Distinct(u.table) ==> Distinct(x.table))
  {
    hide Alike, OldSyntax, ParseKeyword, Renamed, Replaced, Contains;
    var o := os[n];
    assert o in os && Untouched(w, u, key, newkey, o);
    ReplacedOver(key, newkey, o);
    var e := WithPair(u, newkey, (Over(newkey, o), o));
    assert e.table[newkey] == AllOver(newkey, os[..n + 1]);
    LeafMoved(e, key, newkey, o, depth);
    if Distinct(u.table) {
      OverPushed(newkey, os, n);
      NoDupPush(u.table[newkey], (Over(newkey, o), o));
      assert Distinct(e.table);
    }
    hide Distinct;
    var x := Renamed(e, Over(key, o), Over(newkey, o), depth).0;
    forall i | 0 <= i < |os| && i != n
      ensures x.FlagsOf(Over(newkey, os[i])) == u.FlagsOf(Over(newkey, os[i])) &&
              x.FlagsOf(Over(key, os[i])) == u.FlagsOf(Over(key, os[i]))
      ensures (Over(newkey, os[i]) in x.table ==> Over(newkey, os[i]) in u.table) &&
              (Over(key, os[i]) in x.table ==> Over(key, os[i]) in u.table)
    {
      assert os[i] in os;
      OverApart(key, newkey, os[i], o);
    }
    OverApart(key, newkey, o, o);
  }

  lemma OverPushed(v: Var, os: seq<string>, n: nat)
    requires NoDup(os) && n < |os|
    ensures (Over(v, os[n]), os[n]) !in AllOver(v, os[..n])
  {
  }

  lemma OverApart(key: Var, newkey: Var, o: string, p: string)
    requires Apart(key, newkey)
    ensures Over(key, o) != Over(newkey, p) && Over(newkey, o) != Over(key, p)
    ensures o != p ==> Over(key, o) != Over(key, p) && Over(newkey, o) != Over(newkey, p)
    ensures !(Over(key, o) + ":" <= newkey) && !(Over(newkey, o) + ":" <= newkey)
    ensures Over(key, o) != newkey && Over(newkey, o) != newkey
    ensures !(Over(key, o) + ":" <= Over(newkey, p)) &&
            (!(o + ":" <= p) ==> !(Over(newkey, o) + ":" <= Over(newkey, p)))
  {
    UnrelatedNames(key + ":", newkey + ":", o, p);
    UnrelatedNames(key + ":", newkey + ":", p, o);
    UnrelatedNames(key + ":", newkey + ":", o, "");
    assert newkey + ":" + "" == newkey + ":" && newkey <= newkey + ":";
    assert forall v: Var, q: string :: v + ":" + q == Over(v, q);
    assert forall v: Var, q: string :: Over(v, q)[|v| + 1..] == q;
    assert Over(key, o) <= Over(key, o) + ":";
    assert Over(newkey, p)[|newkey| + 1..] == p && (Over(newkey, o) + ":")[|newkey| + 1..] == o + ":";
  }

  lemma {:induction false} AllMoved(w: View, u: View, key: Var, newkey: Var, os: seq<string>, n: nat, depth: nat)
    requires Apart(key, newkey) && PlainOverrides(os, key) && Halfway(w, u, key, newkey, os, n) && depth > 1
    ensures var (x, end) := AllRenamed(u, key, newkey, AllOver(key, os)[n..], depth);
            end == Finished && Halfway(w, x, key, newkey, os, |os|) && (Distinct(u.table) ==> Distinct(x.table))
    decreases |os| - n
  {
    hide Distinct, Halfway, Renamed, Over, PlainOverrides;
    HalfwayFacts(w, u, key, newkey, os, n);
    var rest := AllOver(key, os)[n..];
    if n < |os| {
      HalfwayNext(w, u, key, newkey, os, n, depth - 1);
      assert rest[0] == (Over(key, os[n]), os[n]) && rest[1..] == AllOver(key, os)[n + 1..];
      AllMoved(w, Renamed(WithPair(u, newkey, (Over(newkey, os[n]), os[n])), Over(key, os[n]), Over(newkey, os[n]),
          depth - 1).0, key, newkey, os, n + 1, depth);
    }
  }

  lemma HalfwayFacts(w: View, u: View, key: Var, newkey: Var, os: seq<string>, n: nat)
    requires Halfway(w, u, key, newkey, os, n)
    ensures n <= |os| && newkey in u.table
  {
  }

  /** A renaming that starts where nothing is in its way has finished, and moved everything. */
  ghost predicate InTheClear(w: View, key: Var, newkey: Var, os: seq<string>) {
    && Apart(key, newkey) && PlainOverrides(os, key) && Free(w, newkey)
    && (if key in w.table then w.table[key] == AllOver(key, os) else os == [])
    && forall i :: 0 <= i < |os| ==> Over(key, os[i]) !in w.table && Free(w, Over(newkey, os[i]))
  }

  /** u shows for newkey and those that override it what w shows for key and those that override that. */
  ghost predicate MovedTo(w: View, u: View, key: Var, newkey: Var, os: seq<string>) {
    && Alike(u.FlagsOf(newkey), w.FlagsOf(key))
    && (if newkey in u.table then u.table[newkey] == AllOver(newkey, os) else os == [])
    && forall i :: 0 <= i < |os| ==>
       Alike(u.FlagsOf(Over(newkey, os[i])), w.FlagsOf(Over(key, os[i]))) && Over(newkey, os[i]) !in u.table
  }

  lemma CarriedHalfway(w: View, key: Var, newkey: Var, os: seq<string>)
    requires InTheClear(w, key, newkey, os)
    ensures var a := Carried(w, key, newkey);
            && Alike(a.FlagsOf(newkey), w.FlagsOf(key)) &&
               Halfway(w.(shown := w.shown[newkey := a.FlagsOf(newkey)]), Emptied(a, newkey), key, newkey, os, 0)
            && (key in a.table <==> key in w.table) && (key in w.table ==> a.table[key] == w.table[key]) &&
               newkey !in a.table
  {
    hide Registered, Alike, OldSyntax, ParseKeyword, Carried, Over;
    var a := Carried(w, key, newkey);
    CarriedToFree(w, key, newkey);
    if ':' in newkey {
      RegisteredApart(w.table, newkey);
      assert !(key + ":" <= newkey) by {
        assert newkey <= newkey + ":";
      }
    }
    forall i | 0 <= i < |os| ensures Untouched(w.(shown := w.shown[newkey := a.FlagsOf(newkey)]), Emptied(a, newkey),
        key, newkey, os[i]) {
      OverApart(key, newkey, os[i], os[i]);
      assert Over(newkey, os[i]) !in a.table && Over(key, os[i]) !in a.table;
      assert a.FlagsOf(Over(newkey, os[i])) == NO_FLAGS && a.FlagsOf(Over(key, os[i])) == w.FlagsOf(Over(key, os[i]));
    }
    assert Emptied(a, newkey).table[newkey] == AllOver(newkey, os[..0]);
  }

  /** What is left to do at the end leaves newkey alone. */
  lemma LeftAlone(x: View, key: Var, newkey: Var, unset: bool, s: Var)
    requires newkey <= s && s != key && !(s + ":" <= key)
    ensures var u := Deleted(Relisted(x, newkey, unset), key);
            u.FlagsOf(s) == x.FlagsOf(s) && (s in u.table <==> s in x.table) &&
                (s in x.table ==> u.table[s] == x.table[s])
  {
    hide Registered, Unregistered;
    if ':' in newkey {
      RegisteredApart(x.table, newkey);
    }
    var t := Relisted(x, newkey, unset).table - {key};
    UnregisteredSubset(t, key);
    if ':' in key && s in t {
      UnregisteredApart(t, key, s);
    }
  }

  lemma RenamedMoves(w: View, key: Var, newkey: Var, os: seq<string>, depth: nat)
    requires InTheClear(w, key, newkey, os) && depth > 1
    ensures var (u, end) := Renamed(w, key, newkey, depth);
            end == Finished && MovedTo(w, u, key, newkey, os) &&
            u.FlagsOf(key) == NO_FLAGS && key !in u.table
    ensures Distinct(w.table) ==> Distinct(Renamed(w, key, newkey, depth).0.table)
  {
    hide Distinct, Registered, Unregistered, Alike, OldSyntax, ParseKeyword, Carried, Over, PlainOverrides, AllRenamed,
        Local;
    CarriedHalfway(w, key, newkey, os);
    var a := Carried(w, key, newkey);
    var w1 := w.(shown := w.shown[newkey := a.FlagsOf(newkey)]);
    var x := a;
    if key in w.table {
      AllMoved(w1, Emptied(a, newkey), key, newkey, os, 0, depth);
      assert AllOver(key, os)[0..] == AllOver(key, os);
      x := AllRenamed(Emptied(a, newkey), key, newkey, AllOver(key, os), depth).0;
      assert os[..|os|] == os;
    }
    var unset := Local(w.FlagsOf(key), false).None?;
    var u := Deleted(Relisted(x, newkey, unset), key);
    LeftAlone(x, key, newkey, unset, newkey);
    forall i | 0 <= i < |os|
      ensures Alike(u.FlagsOf(Over(newkey, os[i])), w.FlagsOf(Over(key, os[i]))) && Over(newkey, os[i]) !in u.table
    {
      OverApart(key, newkey, os[i], os[i]);
      OverBegins(newkey, os[i]);
      OverApart(newkey, key, os[i], os[i]);
      LeftAlone(x, key, newkey, unset, Over(newkey, os[i]));
      assert w1.FlagsOf(Over(key, os[i])) == w.FlagsOf(Over(key, os[i]));
    }
    UnregisteredSubset(Relisted(x, newkey, unset).table - {key}, key);
    if Distinct(w.table) {
      CarriedDistinct(w, key, newkey);
      LeaveDistinct(x, key, newkey, unset);
    }
  }

  lemma CarriedDistinct(w: View, key: Var, newkey: Var)
    requires Distinct(w.table)
    ensures Distinct(Carried(w, key, newkey).table) && Distinct(Emptied(Carried(w, key, newkey), newkey).table)
  {
    hide Registered, Carried;
    CarriedTable(w, key, newkey);
    forall v ensures Distinct(Registered(w.table, v)) {
      DistinctRegistered(w.table, v);
    }
  }

  lemma LeaveDistinct(x: View, key: Var, newkey: Var, unset: bool)
    requires Distinct(x.table)
    ensures Distinct(Deleted(Relisted(x, newkey, unset), key).table)
  {
    hide Registered, Unregistered;
    DistinctRegistered(x.table, newkey);
    DistinctUnregistered(Relisted(x, newkey, unset).table - {key}, key);
  }

  lemma OverBegins(v: Var, o: string)
    ensures v < Over(v, o)
  {
  }

  lemma SameOverrideWins(key: Var, newkey: Var, os: seq<string>, ovs: seq<string>)
    ensures Winner(AllOver(key, os), ovs).None? <==> Winner(AllOver(newkey, os), ovs).None?
    ensures Winner(AllOver(key, os), ovs).Some? ==>
              exists o :: o in os && Winner(AllOver(key, os), ovs) == Some(Over(key, o)) &&
                  Winner(AllOver(newkey, os), ovs) == Some(Over(newkey, o))
  {
    hide Winner, Over;
    var self := seq(|os|, i requires 0 <= i < |os| => (os[i], os[i]));
    assert PairsNamed(self, o => Over(key, o)) == AllOver(key, os);
    assert PairsNamed(self, o => Over(newkey, o)) == AllOver(newkey, os);
    WinnerNamed(self, ovs, o => Over(key, o));
    WinnerNamed(self, ovs, o => Over(newkey, o));
    WinnerIsActive(self, ovs);
  }

  lemma DecoratedAlike(f: Flags, g: Flags, base: Option<string>, ovs: seq<string>)
    requires Alike(f, g)
    ensures Decorated(base, f, ovs) == Decorated(base, g, ovs) && Local(f, false) == Local(g, false)
  {
  }

  lemma LeafReading(w: View, u: View, a: Var, b: Var, ovs: seq<string>)
    requires Nested(w.table) && Nested(u.table) && a !in w.table && b !in u.table && Alike(u.FlagsOf(b), w.FlagsOf(a))
    ensures Reading(u, b, ovs, false) == Reading(w, a, ovs, false)
  {
    hide Decorated;
    DecoratedAlike(u.FlagsOf(b), w.FlagsOf(a), Local(w.FlagsOf(a), false), ovs);
  }

  lemma MovedReads(w: View, u: View, key: Var, newkey: Var, os: seq<string>, ovs: seq<string>)
    requires Nested(w.table) && Nested(u.table) && InTheClear(w, key, newkey, os) && MovedTo(w, u, key, newkey, os)
    ensures Reading(u, newkey, ovs, false) == Reading(w, key, ovs, false)
  {
    hide Decorated, Winner, Alike, Over, OldSyntax, ParseKeyword, Nested, Local;
    SameOverrideWins(key, newkey, os, ovs);
    assert OverReading(w, key, ovs) == OverReading(u, newkey, ovs) by {
      if Winner(AllOver(key, os), ovs).Some? {
        var o :| o in os && Winner(AllOver(key, os), ovs) == Some(Over(key, o)) &&
            Winner(AllOver(newkey, os), ovs) == Some(Over(newkey, o));
        var i :| 0 <= i < |os| && os[i] == o;
        LeafReading(w, u, Over(key, o), Over(newkey, o), ovs);
      }
    }
    var over := OverReading(w, key, ovs);
    DecoratedAlike(u.FlagsOf(newkey), w.FlagsOf(key), if over.Some? then over else Local(w.FlagsOf(key), false), ovs);
  }

  /**
   Renaming a variable, with the names that override it, to one that is not in use: whichever
   overrides are active, the new name reads as the old one did, and the old one as unset.
   */
  lemma RenamedReads(w: View, key: Var, newkey: Var, os: seq<string>, depth: nat, ovs: seq<string>)
    requires Nested(w.table) && InTheClear(w, key, newkey, os) && newkey != "" && depth > 1
    ensures var (u, end) := Renamed(w, key, newkey, depth);
            && end == Finished && Nested(u.table)
            && Reading(u, newkey, ovs, false) == Reading(w, key, ovs, false) && Reading(u, key, ovs, false) == None
  {
    hide Decorated, Winner, Alike, Over, OldSyntax, ParseKeyword, Nested, MovedTo, Renamed;
    RenamedMoves(w, key, newkey, os, depth);
    RenamedNested(w, key, newkey, depth);
    var u := Renamed(w, key, newkey, depth).0;
    MovedReads(w, u, key, newkey, os, ovs);
    DecoratedPlain(None, ovs);
    assert OverReading(u, key, ovs) == None;
  }

  // ---------- a renaming that lists a name twice ----------

  const TWO_LEVELS := View(
    map["A:x" := Flags(map[CONTENT := "1"], map[]), "A:x:y" := Flags(map[CONTENT := "2"], map[])],
    map["A" := [("A:x", "x"), ("A:x:y", "x:y")], "A:x" := [("A:x:y", "y")]])

  lemma TwoLevelNames()
    ensures Replaced("A:x", "A", "B") == "B:x" && Replaced("A:x:y", "A", "B") == "B:x:y" &&
            Replaced("A:x:y", "A:x", "B:x") == "B:x:y"
    ensures ParseKeyword("B:x").None? && ParseKeyword("B:x:y").None? && !OldSyntax("B:x") && !OldSyntax("B:x:y")
  {
    assert Over("B", "x") == "B:x" && Over("A", "x") == "A:x" && Over("B", "x:y") == "B:x:y" &&
           Over("A", "x:y") == "A:x:y";
    assert Over("B:x", "y") == "B:x:y" && Over("A:x", "y") == "A:x:y";
    NotFound("x", "A");
    NotFound("x:y", "A");
    NotFound("y", "A:x");
    ReplacedOver("A", "B", "x");
    ReplacedOver("A", "B", "x:y");
    ReplacedOver("A:x", "B:x", "y");
    HarmlessName("B:x");
    HarmlessName("B:x:y");
  }

  lemma NotFound(o: string, v: Var)
    requires v != "" && v[0] != ':' && v[0] !in o
    ensures !Contains(":" + o, v)
  {
    assert v[0] in v;
    if Contains(":" + o, v) {
      ContainsChars(":" + o, v);
    }
  }

  lemma ApartByFirst(a: Var, b: Var)
    requires a != "" && b != "" && a[0] != b[0]
    ensures Unrelated(a, b)
  {
  }

  /** A:x:y is renamed to B:x:y, and listed under B at once. */
  lemma InnermostRenaming(e: View, depth: nat)
    requires depth > 0 && Free(e, "B:x:y") && "B" in e.table && "A:x:y" !in e.table
    ensures var (u, end) := Renamed(e, "A:x:y", "B:x:y", depth);
            && end == Finished && u.FlagsOf("A:x:y") == NO_FLAGS
            && "B" in u.table && ("B:x:y", "x:y") in u.table["B"] && "A:x:y" !in u.table && e.table.Keys <= u.table.Keys
  {
    hide Registered, Unregistered, Replaced, ParseKeyword, OldSyntax, Carried, Renamed;
    ApartByFirst("A:x:y", "B:x:y");
    ApartByFirst("A:x:y", "B");
    assert "A:x:y"[1] == ':' && "B:x:y"[1] == ':';
    RegisteredApart(e.table, "B:x:y");
    assert "A:x:y" !in Registered(e.table, "B:x:y");
    LeafRenamed(e, "A:x:y", "B:x:y", depth);
    var t := Registered(e.table, "B:x:y");
    TwoLevelSpot(e.table);
    UnregisteredSubset(t, "A:x:y");
    UnregisteredApart(t, "A:x:y", "B");
    RegisteredKeeps(e.table, "B:x:y");
    assert forall s :: Keeps(e.table, t, s);
    forall s | s in e.table ensures s in t {
      assert Keeps(e.table, t, s);
    }
  }

  lemma TwoLevelSpot(t: Table)
    ensures "B" in Registered(t, "B:x:y") && ("B:x:y", "x:y") in Registered(t, "B:x:y")["B"]
  {
    var name := "B:x:y";
    assert name[..1] == "B" && Tail(name, 1) == "x:y";
    assert IsSpot(name, 1, LooksLikeOverride) by {
      assert name[2..] == "x:y" && name[4..] == "y";
    }
    hide IsSpot, Tail;
    assert "B" in Spots(name, 0);
  }

  /** A:x is renamed to B:x, and with it A:x:y, which overrides it. */
  lemma InnerRenaming(w: View, depth: nat)
    requires depth > 1 && w.shown == TWO_LEVELS.shown && w.table == TWO_LEVELS.table["B" := [("B:x", "x")]]
    ensures var (u, end) := Renamed(w, "A:x", "B:x", depth);
            && end == Finished && u.FlagsOf("A:x:y") == NO_FLAGS
            && "B" in u.table && ("B:x:y", "x:y") in u.table["B"] && "A:x:y" !in u.table && "A" in u.table
  {
    TwoLevelNames();
    hide Registered, Unregistered, Replaced, ParseKeyword, OldSyntax, Carried;
    CarriedToFree(w, "A:x", "B:x");
    var a := Carried(w, "A:x", "B:x");
    CarriedInner(w);
    var e := WithPair(Emptied(a, "B:x"), "B:x", ("B:x:y", "y"));
    InnermostRenaming(e, depth - 1);
    var b := Renamed(e, "A:x:y", "B:x:y", depth - 1);
    assert AllRenamed(Emptied(a, "B:x"), "A:x", "B:x", [("A:x:y", "y")], depth) == b;
    UnregisteredSubset(b.0.table - {"A:x"}, "A:x");
    UnregisteredApart(b.0.table - {"A:x"}, "A:x", "B");
  }

  lemma CarriedInner(w: View)
    requires w.shown == TWO_LEVELS.shown && w.table == TWO_LEVELS.table["B" := [("B:x", "x")]]
    ensures var a := Carried(w, "A:x", "B:x");
            && "A:x" in a.table && a.table["A:x"] == [("A:x:y", "y")] && "A" in a.table && "B" in a.table
            && "A:x:y" !in a.table && a.FlagsOf("B:x:y") == NO_FLAGS && "B:x:y" !in a.table
  {
    TwoLevelNames();
    hide Registered, ParseKeyword, OldSyntax, Carried, Alike, Local;
    CarriedToFree(w, "A:x", "B:x");
    RegisteredApart(w.table, "B:x");
    ApartByFirst("A:x:y", "B:x");
    ApartByFirst("A:x", "B:x");
    ApartByFirst("A", "B:x");
    RegisteredKeeps(w.table, "B:x");
    assert Keeps(w.table, Registered(w.table, "B:x"), "B");
  }

  lemma CarriedNothing(w: View, key: Var, newkey: Var)
    requires w.FlagsOf(key) == NO_FLAGS
    ensures Carried(w, key, newkey) == w && Local(w.FlagsOf(key), false).None?
  {
  }

  /** A variable with two levels of overriding names, renamed: one of them is listed twice afterwards. */
  lemma RenamingRepeats(depth: nat)
    requires depth > 2
    ensures var (u, end) := Renamed(TWO_LEVELS, "A", "B", depth);
            end == Finished && "B" in u.table &&
            !NoDup(u.table["B"])
    ensures Distinct(TWO_LEVELS.table)
  {
    hide Registered, Unregistered, Replaced, ParseKeyword, OldSyntax, Carried, Local, AllRenamed;
    CarriedNothing(TWO_LEVELS, "A", "B");
    BothRenamed(depth);
    var u := AllRenamed(Emptied(TWO_LEVELS, "B"), "A", "B", TWO_LEVELS.table["A"], depth).0;
    assert ':' !in "A" && ':' !in "B";
    assert (u.table - {"A"})["B"] == u.table["B"];
  }

  lemma BothRenamed(depth: nat)
    requires depth > 2
    ensures var (u, end) := AllRenamed(Emptied(TWO_LEVELS, "B"), "A", "B", TWO_LEVELS.table["A"], depth);
            end == Finished && "B" in u.table && !NoDup(u.table["B"])
  {
    TwoLevelNames();
    hide Registered, Unregistered, Replaced, ParseKeyword, OldSyntax, Carried, Renamed;
    var w := TWO_LEVELS;
    var e := WithPair(Emptied(w, "B"), "B", ("B:x", "x"));
    assert [] + [("B:x", "x")] == [("B:x", "x")];
    InnerRenaming(e, depth - 1);
    var b := Renamed(e, "A:x", "B:x", depth - 1).0;
    var f := WithPair(b, "B", ("B:x:y", "x:y"));
    LastRenaming(f, depth - 1);
    var c := Renamed(f, "A:x:y", "B:x:y", depth - 1);
    assert w.table["A"] == [("A:x", "x"), ("A:x:y", "x:y")] && w.table["A"][1..] == [("A:x:y", "x:y")] &&
           w.table["A"][1..][1..] == [];
    assert AllRenamed(b, "A", "B", w.table["A"][1..], depth) == c;
    var n := |b.table["B"]|;
    var i :| 0 <= i < n && b.table["B"][i] == ("B:x:y", "x:y");
    assert c.0.table["B"][i] == c.0.table["B"][n];
  }

  /** By the time its turn comes, A:x:y shows nothing any more: only the lists change. */
  lemma LastRenaming(f: View, depth: nat)
    requires depth > 0 && f.FlagsOf("A:x:y") == NO_FLAGS && "A:x:y" !in f.table && "B" in f.table &&
             ("B:x:y", "x:y") in f.table["B"]
    ensures var (u, end) := Renamed(f, "A:x:y", "B:x:y", depth);
            end == Finished && "B" in u.table &&
            u.table["B"] == f.table["B"]
  {
    hide Registered, Unregistered, OldSyntax, Carried;
    CarriedNothing(f, "A:x:y", "B:x:y");
    TwoLevelTail(f.table);
    var t := Registered(f.table, "B:x:y");
    ApartByFirst("A:x:y", "B:x:y");
    RegisteredApart(f.table, "B:x:y");
    UnregisteredSubset(t - {"A:x:y"}, "A:x:y");
    UnregisteredApart(t - {"A:x:y"}, "A:x:y", "B");
  }

  lemma TwoLevelTail(t: Table)
    requires "B" in t && ("B:x:y", "x:y") in t["B"]
    ensures "B" in Registered(t, "B:x:y") && Registered(t, "B:x:y")["B"] == t["B"]
  {
    var name := "B:x:y";
    assert name[..1] == "B" && Tail(name, 1) == "x:y";
    hide IsSpot, Tail;
  }
}
