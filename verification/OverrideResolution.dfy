/** Which overridden name supplies a variable's value, and how deferred operations join it. */
module OverrideResolution {
  import opened Collections
  import opened Strings

  type Var = string

  /** A name that overrides a variable, and its part after the variable's name and a colon. */
  type Pair = (Var, string)

  predicate AllIn(parts: seq<string>, ovs: seq<string>) {
    forall p :: p in parts ==> p in ovs
  }

  predicate IsActive(o: string, ovs: seq<string>) {
    o in ovs || (':' in o && AllIn(Parts(o), ovs))
  }

  predicate EndsWith(s: string, tail: string) {
    |tail| <= |s| && s[|s| - |tail|..] == tail
  }

  /** `s.replace(part, "")`, which takes out one occurrence after the other. */
  function Removed(s: string, part: string): (r: string)
    requires part != ""
    ensures |r| <= |s|
    ensures r == if s == "" then ""
            else if part <= s then Removed(s[|part|..], part) else [s[0]] + Removed(s[1..], part)
  {
    ReplacedShrinks(s, part, "");
    Replaced(s, part, "")
  }

  lemma {:induction false} RemovedShrinks(s: string, part: string)
    requires part != "" && EndsWith(s, part)
    ensures |Removed(s, part)| < |s|
  {
    assert s == s[..|s| - |part|] + part;
    if !(part <= s) {
      assert s[1..][|s[1..]| - |part|..] == s[|s| - |part|..];
      RemovedShrinks(s[1..], part);
    }
  }

  // ---------- the active overrides: a dictionary in insertion order ----------

  datatype Dict = Dict(names: seq<string>, at: map<string, Var>) {
    ghost predicate Sound() {
      NoDup(names) && Elems(names) == at.Keys
    }

    function Store(k: string, v: Var): (d: Dict)
      requires Sound()
      ensures d.Sound() && d.at == at[k := v]
      ensures TotalLength(d.names) <= TotalLength(names) + |k|
    {
      InElems(names, k);
      if k in at then Dict(names, at[k := v])
      else
        NoDupPush(names, k);
        ElemsPush(names, k);
        TotalLengthPush(names, k);
        Dict(names + [k], at[k := v])
    }

    function Drop(k: string): (d: Dict)
      requires Sound() && k in at
      ensures d.Sound() && d.at == at - {k}
      ensures TotalLength(d.names) == TotalLength(names) - |k|
    {
      InElems(names, k);
      RemoveFirstIsWithout(names, k);
      WithoutElems(names, {k});
      TotalLengthRemove(names, k);
      Dict(RemoveFirst(names, k), at - {k})
    }
  }

  function TotalLength(names: seq<string>): nat {
    if names == [] then 0 else |names[0]| + TotalLength(names[1..])
  }

  lemma {:induction false} TotalLengthPush(names: seq<string>, k: string)
    ensures TotalLength(names + [k]) == TotalLength(names) + |k|
  {
    if names == [] {
      assert TotalLength([k]) == |k| + TotalLength([k][1..]);
    } else {
      assert (names + [k])[1..] == names[1..] + [k];
      TotalLengthPush(names[1..], k);
    }
  }

  lemma {:induction false} TotalLengthRemove(names: seq<string>, k: string)
    requires k in names
    ensures TotalLength(RemoveFirst(names, k)) == TotalLength(names) - |k|
  {
    if names[0] != k {
      TotalLengthRemove(names[1..], k);
      assert RemoveFirst(names, k)[1..] == RemoveFirst(names[1..], k);
    }
  }

  lemma NoDupTail<T>(s: seq<T>)
    requires NoDup(s) && s != []
    ensures NoDup(s[1..]) && s[0] !in s[1..] && Elems(s) == Elems(s[1..]) + {s[0]}
  {
    assert s == [s[0]] + s[1..];
    assert forall i :: 0 <= i < |s| - 1 ==> s[1..][i] == s[i + 1];
  }

  // ---------- the search ----------

  /** The overrides not yet used up, the name found last, and whether a name was shortened. */
  datatype Search = Search(active: Dict, found: Option<Var>, changed: bool) {
    ghost function Size(): nat {
      TotalLength(active.names)
    }

    /** t comes after this one: a name was shortened only if there is less to do. */
    ghost predicate Before(t: Search) {
      t.active.Sound() && t.Size() <= Size() && (changed ==> t.changed) && (t.changed && !changed ==> t.Size() < Size())
    }
  }

  /** One active name held against one override. */
  function Visit(s: Search, o: string, a: string): (t: Search)
    requires s.active.Sound() && a in s.active.at
    ensures s.Before(t) && s.active.at.Keys - {a} <= t.active.at.Keys
  {
    if EndsWith(a, ":" + o) then
      RemovedShrinks(a, ":" + o);
      Search(s.active.Drop(a).Store(Removed(a, ":" + o), s.active.at[a]), s.found, true)
    else if a == o then
      Search(s.active.Drop(a), Some(s.active.at[a]), s.changed)
    else s
  }

  /** The names are those there were when the override's turn came. */
  function VisitAll(s: Search, o: string, names: seq<string>): (t: Search)
    requires s.active.Sound() && NoDup(names) && Elems(names) <= s.active.at.Keys
    ensures s.Before(t)
    decreases |names|
  {
    if names == [] then s
    else
      NoDupTail(names);
      VisitAll(Visit(s, o, names[0]), o, names[1..])
  }

  function Sweep(s: Search, ovs: seq<string>): (t: Search)
    requires s.active.Sound()
    ensures s.Before(t)
    decreases |ovs|
  {
    if ovs == [] then s
    else Sweep(VisitAll(s, ovs[0], s.active.names), ovs[1..])
  }

  function Settle(s: Search, ovs: seq<string>): (t: Search)
    requires s.active.Sound()
    decreases TotalLength(s.active.names)
  {
    var t := Sweep(s.(changed := false), ovs);
    if t.changed then Settle(t, ovs) else t
  }

  function ActiveOf(pairs: seq<Pair>, ovs: seq<string>): (d: Dict)
    ensures d.Sound()
    decreases |pairs|
  {
    if pairs == [] then Dict([], map[])
    else
      var p := pairs[|pairs| - 1];
      var d := ActiveOf(pairs[..|pairs| - 1], ovs);
      if IsActive(p.1, ovs) then d.Store(p.1, p.0) else d
  }

  /** The overriding name that supplies the value. */
  function Winner(pairs: seq<Pair>, ovs: seq<string>): Option<Var> {
    Settle(Search(ActiveOf(pairs, ovs), None, false), ovs).found
  }

  /** The loops of `getVarFlag`; the outer one stops because shortening cannot go on for ever. */
  method FindMatch(pairs: seq<Pair>, ovs: seq<string>) returns (found: Option<Var>)
    ensures found == Winner(pairs, ovs)
  {
    var s := Search(ActiveOf([], ovs), None, true);
    for i := 0 to |pairs|
      invariant s == Search(ActiveOf(pairs[..i], ovs), None, true)
    {
      assert pairs[..i + 1][..i] == pairs[..i];
      if IsActive(pairs[i].1, ovs) {
        s := s.(active := s.active.Store(pairs[i].1, pairs[i].0));
      }
    }
    assert pairs[..|pairs|] == pairs;
    assert Winner(pairs, ovs) == Settle(s.(changed := false), ovs).found by {
      assert s.(changed := false) == Search(ActiveOf(pairs, ovs), None, false);
    }
    while s.changed
      invariant s.active.Sound()
      invariant Winner(pairs, ovs) == if s.changed then Settle(s, ovs).found else s.found
      decreases s.changed, s.Size()
    {
      s := SweepAll(s.(changed := false), ovs);
    }
    found := s.found;
  }

  method SweepAll(s: Search, ovs: seq<string>) returns (t: Search)
    requires s.active.Sound()
    ensures t == Sweep(s, ovs)
  {
    t := s;
    for i := 0 to |ovs|
      invariant t.active.Sound() && Sweep(t, ovs[i..]) == Sweep(s, ovs)
    {
      var names := t.active.names;
      ghost var before := t;
      for j := 0 to |names|
        invariant t.active.Sound() && Elems(names[j..]) <= t.active.at.Keys
        invariant NoDup(names[j..]) && VisitAll(t, ovs[i], names[j..]) == VisitAll(before, ovs[i], names)
      {
        NoDupTail(names[j..]);
        assert names[j..][1..] == names[j + 1..];
        t := Visit(t, ovs[i], names[j]);
      }
      assert ovs[i..][1..] == ovs[i + 1..];
    }
  }

  // ---------- what wins ----------

  lemma {:induction false} ActiveOfFacts(pairs: seq<Pair>, ovs: seq<string>)
    ensures var at := ActiveOf(pairs, ovs).at;
            && (forall p :: p in pairs && IsActive(p.1, ovs) ==> p.1 in at)
            && (forall o :: o in at ==> IsActive(o, ovs) && LastFor(pairs, o, at[o]))
    decreases |pairs|
  {
    hide IsActive, LastFor;
    if pairs != [] {
      var n := |pairs| - 1;
      ActiveOfFacts(pairs[..n], ovs);
      assert pairs == pairs[..n] + [pairs[n]];
      LastForPush(pairs[..n], pairs[n]);
    }
  }

  lemma LastForPush(pairs: seq<Pair>, p: Pair)
    ensures LastFor(pairs + [p], p.1, p.0)
    ensures forall o, v :: o != p.1 && LastFor(pairs, o, v) ==> LastFor(pairs + [p], o, v)
  {
    var all := pairs + [p];
    assert all[|pairs|] == p;
    forall o, v | o != p.1 && LastFor(pairs, o, v) ensures LastFor(all, o, v) {
      var i :| 0 <= i < |pairs| && pairs[i] == (v, o) && forall j :: i < j < |pairs| ==> pairs[j].1 != o;
      assert all[i] == (v, o);
    }
  }

  /** The last pair for an override names this variable. */
  ghost predicate LastFor(pairs: seq<Pair>, o: string, v: Var) {
    exists i :: 0 <= i < |pairs| && pairs[i] == (v, o) && forall j :: i < j < |pairs| ==> pairs[j].1 != o
  }

  ghost predicate DrawnFrom(s: Search, vs: set<Var>) {
    s.active.at.Values <= vs && (s.found.Some? ==> s.found.value in vs)
  }

  lemma VisitDrawn(s: Search, o: string, a: string, vs: set<Var>)
    requires s.active.Sound() && a in s.active.at && DrawnFrom(s, vs)
    ensures DrawnFrom(Visit(s, o, a), vs)
  {
  }

  lemma {:induction false} VisitAllDrawn(s: Search, o: string, names: seq<string>, vs: set<Var>)
    requires s.active.Sound() && NoDup(names) && Elems(names) <= s.active.at.Keys && DrawnFrom(s, vs)
    ensures DrawnFrom(VisitAll(s, o, names), vs)
    decreases |names|
  {
    if names != [] {
      NoDupTail(names);
      VisitDrawn(s, o, names[0], vs);
      VisitAllDrawn(Visit(s, o, names[0]), o, names[1..], vs);
    }
  }

  lemma {:induction false} SweepDrawn(s: Search, ovs: seq<string>, vs: set<Var>)
    requires s.active.Sound() && DrawnFrom(s, vs)
    ensures DrawnFrom(Sweep(s, ovs), vs)
    decreases |ovs|
  {
    if ovs != [] {
      VisitAllDrawn(s, ovs[0], s.active.names, vs);
      SweepDrawn(VisitAll(s, ovs[0], s.active.names), ovs[1..], vs);
    }
  }

  lemma {:induction false} SettleDrawn(s: Search, ovs: seq<string>, vs: set<Var>)
    requires s.active.Sound() && DrawnFrom(s, vs)
    ensures DrawnFrom(Settle(s, ovs), vs)
    decreases TotalLength(s.active.names)
  {
    SweepDrawn(s.(changed := false), ovs, vs);
    var t := Sweep(s.(changed := false), ovs);
    if t.changed {
      SettleDrawn(t, ovs, vs);
    }
  }

  /** A variable never takes its value from a name with an inactive override. */
  lemma WinnerIsActive(pairs: seq<Pair>, ovs: seq<string>)
    ensures Winner(pairs, ovs).Some? ==> exists p :: p in pairs && p.0 == Winner(pairs, ovs).value && IsActive(p.1, ovs)
  {
    ActiveOfFacts(pairs, ovs);
    var s := Search(ActiveOf(pairs, ovs), None, false);
    SettleDrawn(s, ovs, s.active.at.Values);
    if Winner(pairs, ovs).Some? {
      var o :| o in s.active.at && s.active.at[o] == Winner(pairs, ovs).value;
      assert LastFor(pairs, o, s.active.at[o]);
    }
  }

  // ---------- the names have no say ----------

  function Named(d: Dict, f: Var -> Var): Dict {
    Dict(d.names, map k | k in d.at :: f(d.at[k]))
  }

  function SearchNamed(s: Search, f: Var -> Var): Search {
    Search(Named(s.active, f), if s.found.None? then None else Some(f(s.found.value)), s.changed)
  }

  function PairsNamed(pairs: seq<Pair>, f: Var -> Var): seq<Pair> {
    seq(|pairs|, i requires 0 <= i < |pairs| => (f(pairs[i].0), pairs[i].1))
  }

  lemma NamedSound(d: Dict, f: Var -> Var)
    requires d.Sound()
    ensures Named(d, f).Sound() && Named(d, f).at.Keys == d.at.Keys
  {
  }

  lemma NamedStore(d: Dict, k: string, v: Var, f: Var -> Var)
    requires d.Sound() && Named(d, f).Sound()
    ensures Named(d.Store(k, v), f) == Named(d, f).Store(k, f(v))
  {
  }

  lemma NamedDrop(d: Dict, k: string, f: Var -> Var)
    requires d.Sound() && Named(d, f).Sound() && k in d.at
    ensures k in Named(d, f).at && Named(d.Drop(k), f) == Named(d, f).Drop(k)
  {
  }

  lemma VisitNamed(s: Search, o: string, a: string, f: Var -> Var)
    requires s.active.Sound() && a in s.active.at
    ensures var t := SearchNamed(s, f);
            t.active.Sound() && a in t.active.at && SearchNamed(Visit(s, o, a), f) == Visit(t, o, a)
  {
    NamedSound(s.active, f);
    NamedDrop(s.active, a, f);
    if EndsWith(a, ":" + o) {
      RemovedShrinks(a, ":" + o);
      NamedSound(s.active.Drop(a), f);
      NamedStore(s.active.Drop(a), Removed(a, ":" + o), s.active.at[a], f);
    }
  }

  lemma {:induction false} VisitAllNamed(s: Search, o: string, names: seq<string>, f: Var -> Var)
    requires s.active.Sound() && NoDup(names) && Elems(names) <= s.active.at.Keys
    ensures var t := SearchNamed(s, f);
            && t.active.Sound() && Elems(names) <= t.active.at.Keys
            && SearchNamed(VisitAll(s, o, names), f) == VisitAll(t, o, names)
    decreases |names|
  {
    hide Visit;
    NamedSound(s.active, f);
    if names != [] {
      NoDupTail(names);
      VisitNamed(s, o, names[0], f);
      VisitAllNamed(Visit(s, o, names[0]), o, names[1..], f);
    }
  }

  lemma {:induction false} SweepNamed(s: Search, ovs: seq<string>, f: Var -> Var)
    requires s.active.Sound()
    ensures SearchNamed(s, f).active.Sound() && SearchNamed(Sweep(s, ovs), f) == Sweep(SearchNamed(s, f), ovs)
    decreases |ovs|
  {
    hide VisitAll;
    NamedSound(s.active, f);
    if ovs != [] {
      VisitAllNamed(s, ovs[0], s.active.names, f);
      SweepNamed(VisitAll(s, ovs[0], s.active.names), ovs[1..], f);
    }
  }

  lemma {:induction false} SettleNamed(s: Search, ovs: seq<string>, f: Var -> Var)
    requires s.active.Sound()
    ensures SearchNamed(s, f).active.Sound() && SearchNamed(Settle(s, ovs), f) == Settle(SearchNamed(s, f), ovs)
    decreases TotalLength(s.active.names)
  {
    hide Sweep;
    NamedSound(s.active, f);
    SweepNamed(s.(changed := false), ovs, f);
    var t := Sweep(s.(changed := false), ovs);
    if t.changed {
      SettleNamed(t, ovs, f);
    }
  }

  lemma {:induction false} ActiveOfNamed(pairs: seq<Pair>, ovs: seq<string>, f: Var -> Var)
    ensures ActiveOf(PairsNamed(pairs, f), ovs) == Named(ActiveOf(pairs, ovs), f)
    decreases |pairs|
  {
    hide IsActive;
    if pairs != [] {
      var n := |pairs| - 1;
      ActiveOfNamed(pairs[..n], ovs, f);
      assert PairsNamed(pairs, f)[..n] == PairsNamed(pairs[..n], f);
      var d := ActiveOf(pairs[..n], ovs);
      NamedSound(d, f);
      NamedStore(d, pairs[n].1, pairs[n].0, f);
    }
  }

  /** Which pair wins depends on the overrides alone: with other names for them, the same one does. */
  lemma WinnerNamed(pairs: seq<Pair>, ovs: seq<string>, f: Var -> Var)
    ensures var v := Winner(pairs, ovs);
            Winner(PairsNamed(pairs, f), ovs) == if v.None? then None else Some(f(v.value))
  {
    ActiveOfNamed(pairs, ovs, f);
    SettleNamed(Search(ActiveOf(pairs, ovs), None, false), ovs, f);
  }

  // ---------- overrides of one component ----------

  function First(ovs: seq<string>, o: string): nat
    requires o in ovs
  {
    if ovs[0] == o then 0 else 1 + First(ovs[1..], o)
  }

  /** o is in both, and no other such name comes into ovs later. */
  ghost predicate Rightmost(o: string, names: set<string>, ovs: seq<string>) {
    o in names && o in ovs && forall p :: p in names && p in ovs && p != o ==> First(ovs, p) < First(ovs, o)
  }

  ghost predicate Plain(names: set<string>) {
    forall a :: a in names ==> ':' !in a
  }

  lemma VisitPlain(s: Search, o: string, a: string)
    requires s.active.Sound() && a in s.active.at && ':' !in a
    ensures Visit(s, o, a) == if a == o then Search(s.active.Drop(o), Some(s.active.at[o]), s.changed) else s
  {
    EndsWithColon(a, o);
  }

  lemma EndsWithColon(a: string, o: string)
    ensures EndsWith(a, ":" + o) ==> ':' in a
  {
    if EndsWith(a, ":" + o) {
      assert a[|a| - |":" + o|..][0] == (":" + o)[0];
    }
  }

  lemma {:induction false} VisitAllPlain(s: Search, o: string, names: seq<string>)
    requires s.active.Sound() && NoDup(names) && Elems(names) <= s.active.at.Keys && Plain(s.active.at.Keys)
    ensures VisitAll(s, o, names) == if o in names then Search(s.active.Drop(o), Some(s.active.at[o]), s.changed) else s
    decreases |names|
  {
    if names != [] {
      NoDupTail(names);
      InElems(names, o);
      VisitPlain(s, o, names[0]);
      VisitAllPlain(Visit(s, o, names[0]), o, names[1..]);
    }
  }

  lemma {:induction false} SweepPlain(s: Search, ovs: seq<string>) returns (w: Option<string>)
    requires s.active.Sound() && Plain(s.active.at.Keys)
    ensures w.None? ==> s.active.at.Keys !! Elems(ovs)
    ensures w.Some? ==> Rightmost(w.value, s.active.at.Keys, ovs)
    ensures var t := Sweep(s, ovs);
            t.changed == s.changed &&
            t.found == if w.None? then s.found else Some(s.active.at[w.value])
    ensures Sweep(s, ovs).active.at.Keys <= s.active.at.Keys
    decreases |ovs|
  {
    hide Rightmost;
    w := None;
    if ovs != [] {
      var o := ovs[0];
      VisitAllPlain(s, o, s.active.names);
      InElems(s.active.names, o);
      var t := VisitAll(s, o, s.active.names);
      assert t.active.at == s.active.at - {o};
      w := SweepPlain(t, ovs[1..]);
      assert Sweep(s, ovs) == Sweep(t, ovs[1..]);
      RightmostStep(if w.Some? then w.value else o, s.active.at.Keys, ovs);
      assert Elems(ovs) == {o} + Elems(ovs[1..]) by { assert ovs == [o] + ovs[1..]; }
      if w.None? && o in s.active.at {
        w := Some(o);
      }
    }
  }

  lemma RightmostStep(w: string, names: set<string>, ovs: seq<string>)
    requires ovs != []
    ensures w in names && w == ovs[0] && names - {w} !! Elems(ovs[1..]) ==> Rightmost(w, names, ovs)
    ensures Rightmost(w, names - {ovs[0]}, ovs[1..]) ==> Rightmost(w, names, ovs) && w in names && w != ovs[0]
  {
    assert ovs == [ovs[0]] + ovs[1..];
    assert forall p :: p in ovs && p != ovs[0] ==> p in ovs[1..] && First(ovs, p) == 1 + First(ovs[1..], p);
    if Rightmost(w, names - {ovs[0]}, ovs[1..]) {
      assert First(ovs, ovs[0]) == 0 && First(ovs, w) > 0;
      forall p | p in names && p in ovs && p != w ensures First(ovs, p) < First(ovs, w) {
        if p != ovs[0] {
          assert First(ovs[1..], p) < First(ovs[1..], w);
        }
      }
    }
    if w in names && w == ovs[0] && names - {w} !! Elems(ovs[1..]) {
      forall p | p in names && p in ovs ensures p == w {
        InElems(ovs[1..], p);
      }
    }
  }

  /**
   With overrides of one component each, the active one that comes last in OVERRIDES wins; the
   first mention counts for one listed twice, and of several names for it the last one recorded.
   */
  lemma RightmostWins(pairs: seq<Pair>, ovs: seq<string>)
    requires forall p :: p in pairs ==> ':' !in p.1
    ensures Winner(pairs, ovs).None? <==> forall p :: p in pairs ==> p.1 !in ovs
    ensures Winner(pairs, ovs).Some? ==>
              exists o :: Rightmost(o, Elems(seq(|pairs|, i requires 0 <= i < |pairs| => pairs[i].1)), ovs) &&
                  LastFor(pairs, o, Winner(pairs, ovs).value)
  {
    ActiveOfFacts(pairs, ovs);
    var s := Search(ActiveOf(pairs, ovs), None, false);
    var os := seq(|pairs|, i requires 0 <= i < |pairs| => pairs[i].1);
    forall o | o in s.active.at ensures ':' !in o && o in os && o in ovs {
      assert LastFor(pairs, o, s.active.at[o]);
      var i :| 0 <= i < |pairs| && pairs[i] == (s.active.at[o], o);
      assert pairs[i] in pairs && os[i] == o;
    }
    var w := SweepPlain(s, ovs);
    assert s.(changed := false) == s;
    forall o | o in os && o in ovs ensures o in s.active.at {
      var i :| 0 <= i < |os| && os[i] == o;
      assert pairs[i] in pairs && pairs[i].1 == o;
      assert IsActive(o, ovs);
    }
    if w.Some? {
      assert Rightmost(w.value, Elems(os), ovs);
      assert LastFor(pairs, w.value, s.active.at[w.value]);
    }
    assert forall p :: p in pairs && p.1 in ovs ==> p.1 in s.active.at;
  }

  // ---------- overrides of several components ----------

  /** No component begins with another one, so that cutting out one of them cannot cut into another. */
  ghost predicate Separate(parts: seq<string>) {
    forall p, q :: p in parts && q in parts && p <= q ==> p == q
  }

  lemma {:induction false} LastPart(a: string)
    ensures |Parts(a)| == 1 ==> a == Parts(a)[0]
    ensures |Parts(a)| > 1 ==> EndsWith(a, ":" + Parts(a)[|Parts(a)| - 1])
  {
    if a != "" {
      var b := a[1..];
      LastPart(b);
      assert a == [a[0]] + b;
      var tail := ":" + Parts(b)[|Parts(b)| - 1];
      if EndsWith(b, tail) {
        assert a[|a| - |tail|..] == b[|b| - |tail|..];
      }
      if a[0] == ':' && |Parts(b)| == 1 {
        assert a == tail && a[0..] == a;
      }
    }
  }

  /** What is left of a component list when some of those after the first are gone. */
  ghost predicate Kept(r: seq<string>, p: seq<string>)
    requires r != [] && p != []
  {
    r[0] == p[0] && Elems(r[1..]) <= Elems(p[1..])
  }

  /** Cutting out a component leaves some of the others, whole. */
  lemma {:induction false} RemovedParts(s: string, o: string)
    requires ':' !in o && forall q :: q in Parts(s)[1..] && o <= q ==> q == o
    ensures Kept(Parts(Removed(s, ":" + o)), Parts(s))
    decreases |s|
  {
    hide Kept;
    if s == "" {
      KeptAll("");
    } else if ":" + o <= s {
      var rest := s[|":" + o|..];
      CutParts(s, o, rest);
      RemovedParts(rest, o);
      KeptTrans(Parts(Removed(rest, ":" + o)), Parts(rest), Parts(s));
    } else {
      assert Parts(s)[1..] == Parts(s[1..]) || Parts(s)[1..] == Parts(s[1..])[1..];
      assert forall q :: q in Parts(s[1..])[1..] ==> q in Parts(s)[1..];
      RemovedParts(s[1..], o);
      KeptPush(s[0], Removed(s[1..], ":" + o), s[1..]);
      assert s == [s[0]] + s[1..];
    }
  }

  lemma KeptAll(s: string)
    ensures Kept(Parts(s), Parts(s))
  {
  }

  lemma KeptTrans(a: seq<string>, b: seq<string>, c: seq<string>)
    requires a != [] && b != [] && c != [] && Kept(a, b) && Kept(b, c)
    ensures Kept(a, c)
  {
  }

  lemma PartsPush(c: char, s: string)
    ensures Parts([c] + s)[0] == if c == ':' then "" else [c] + Parts(s)[0]
    ensures Parts([c] + s)[1..] == if c == ':' then Parts(s) else Parts(s)[1..]
  {
    assert ([c] + s)[1..] == s;
  }

  lemma HeadElems<T>(p: seq<T>)
    requires p != []
    ensures Elems(p) == {p[0]} + Elems(p[1..])
  {
    assert p == [p[0]] + p[1..];
  }

  lemma KeptPush(c: char, r: string, s: string)
    requires Kept(Parts(r), Parts(s))
    ensures Kept(Parts([c] + r), Parts([c] + s))
  {
    hide Elems, Parts;
    PartsPush(c, r);
    PartsPush(c, s);
    HeadElems(Parts(r));
    HeadElems(Parts(s));
  }

  lemma CutParts(s: string, o: string, rest: string)
    requires ':' !in o && forall q :: q in Parts(s)[1..] && o <= q ==> q == o
    requires ":" + o <= s && rest == s[|":" + o|..]
    ensures Kept(Parts(rest), Parts(s)) && forall q :: q in Parts(rest)[1..] && o <= q ==> q == o
  {
    assert s == ":" + o + rest;
    assert s[1..] == o + rest && s[0] == ':';
    PartsJoin(o, rest);
    var p := Parts(s[1..]);
    assert Parts(s)[1..] == p;
    assert o <= p[0] && p[0] in p;
    assert p[0] == o && |o + Parts(rest)[0]| == |o|;
    assert p == [o] + Parts(rest)[1..];
    assert forall q :: q in Parts(rest)[1..] ==> q in p;
  }

  /** Every component of every name is an override, and none can be cut into. */
  ghost predicate Cuttable(a: string, ovs: seq<string>) {
    AllIn(Parts(a), ovs) && Separate(Parts(a))
  }

  lemma CutStays(a: string, o: string, ovs: seq<string>)
    requires Cuttable(a, ovs) && EndsWith(a, ":" + o) && ':' !in o
    ensures Cuttable(Removed(a, ":" + o), ovs)
  {
    EndIsLast(a, o);
    assert forall q :: q in Parts(a)[1..] ==> q in Parts(a);
    RemovedParts(a, o);
    var r := Parts(Removed(a, ":" + o));
    HeadElems(r);
    HeadElems(Parts(a));
    forall q | q in r ensures q in Parts(a) {
      InElems(r, q);
      InElems(Parts(a), q);
    }
  }

  // ---------- which overrides are ever used up ----------

  function LastOf(a: string): string {
    Parts(a)[|Parts(a)| - 1]
  }

  lemma EndIsLast(a: string, o: string)
    requires EndsWith(a, ":" + o) && ':' !in o
    ensures LastOf(a) == o && o in Parts(a) && ':' in a
  {
    var x := a[..|a| - |":" + o|];
    assert a == x + ":" + o;
    PartsSnoc(x, o);
    assert a[|x|] == ':';
  }

  lemma LastEnds(a: string)
    requires ':' in a
    ensures EndsWith(a, ":" + LastOf(a)) && ':' !in LastOf(a)
  {
    LastPart(a);
    if |Parts(a)| == 1 {
      FirstHasNoColon(a);
    }
    LastHasNoColon(a);
  }

  lemma FirstHasNoColon(a: string)
    ensures ':' !in Parts(a)[0]
  {
  }

  lemma LastHasNoColon(a: string)
    ensures ':' !in LastOf(a)
  {
    if a != "" {
      LastHasNoColon(a[1..]);
      FirstHasNoColon(a);
    }
  }

  /** Cutting off the last component, and with it whatever else looks like it, leads to an override. */
  predicate Reduces(a: string, ovs: seq<string>)
    decreases |a|
  {
    if ':' !in a then a in ovs
    else
      LastEnds(a);
      RemovedShrinks(a, ":" + LastOf(a));
      LastOf(a) in ovs && Reduces(Removed(a, ":" + LastOf(a)), ovs)
  }

  /** A name has been found, or one of those left leads to an override. */
  ghost predicate Live(s: Search, ovs: seq<string>) {
    s.found.Some? || exists a :: a in s.active.at && Reduces(a, ovs)
  }

  lemma VisitLive(s: Search, o: string, a: string, ovs: seq<string>)
    requires s.active.Sound() && a in s.active.at && o in ovs && ':' !in o
    ensures Live(Visit(s, o, a), ovs) <==> Live(s, ovs)
    ensures var t := Visit(s, o, a);
            !t.changed ==>
                t.active.at.Keys <= s.active.at.Keys &&
                (a in t.active.at ==> a != o && !EndsWith(a, ":" + o))
  {
    var t := Visit(s, o, a);
    if EndsWith(a, ":" + o) {
      EndIsLast(a, o);
      assert Reduces(a, ovs) <==> Reduces(Removed(a, ":" + o), ovs);
      assert t.active.at.Keys == s.active.at.Keys - {a} + {Removed(a, ":" + o)};
    }
  }

  lemma {:induction false} VisitAllLive(s: Search, o: string, names: seq<string>, ovs: seq<string>)
    requires s.active.Sound() && NoDup(names) && Elems(names) <= s.active.at.Keys && o in ovs && ':' !in o
    ensures Live(VisitAll(s, o, names), ovs) <==> Live(s, ovs)
    ensures var t := VisitAll(s, o, names);
            !t.changed ==>
                t.active.at.Keys <= s.active.at.Keys &&
                forall a :: a in Elems(names) && a in t.active.at ==> a != o && !EndsWith(a, ":" + o)
    decreases |names|
  {
    hide Live, EndsWith;
    if names != [] {
      NoDupTail(names);
      VisitLive(s, o, names[0], ovs);
      VisitAllLive(Visit(s, o, names[0]), o, names[1..], ovs);
    }
  }

  /** No override of the list has anything left to do. */
  ghost predicate Exhausted(names: set<string>, from: seq<string>) {
    forall o, a :: o in from && a in names ==> a != o && !EndsWith(a, ":" + o)
  }

  lemma {:induction false} SweepLive(s: Search, from: seq<string>, ovs: seq<string>)
    requires s.active.Sound() && forall o :: o in from ==> o in ovs && ':' !in o
    ensures Live(Sweep(s, from), ovs) <==> Live(s, ovs)
    ensures var t := Sweep(s, from); !t.changed ==>
            t.active.at.Keys <= s.active.at.Keys && Exhausted(t.active.at.Keys, from)
    decreases |from|
  {
    hide Live, Exhausted;
    if from == [] {
      NoneExhausted(s.active.at.Keys);
    } else {
      var u := VisitAll(s, from[0], s.active.names);
      VisitAllLive(s, from[0], s.active.names, ovs);
      SweepLive(u, from[1..], ovs);
      var t := Sweep(s, from);
      if !t.changed {
        ExhaustedPush(t.active.at.Keys, from);
      }
    }
  }

  lemma NoneExhausted(names: set<string>)
    ensures Exhausted(names, [])
  {
  }

  lemma ExhaustedPush(names: set<string>, from: seq<string>)
    requires from != [] && Exhausted(names, from[1..])
    requires forall a :: a in names ==> a != from[0] && !EndsWith(a, ":" + from[0])
    ensures Exhausted(names, from)
  {
    assert from == [from[0]] + from[1..];
  }

  lemma ExhaustedIsDead(names: set<string>, ovs: seq<string>, a: string)
    requires Exhausted(names, ovs) && a in names
    ensures !Reduces(a, ovs)
  {
    if ':' in a {
      LastEnds(a);
    }
  }

  /** When nothing was shortened any more, a name was found exactly if some name led to an override at first. */
  lemma {:induction false} SettleLive(s: Search, ovs: seq<string>)
    requires s.active.Sound() && forall o :: o in ovs ==> ':' !in o
    ensures Settle(s, ovs).found.Some? <==> Live(s, ovs)
    decreases TotalLength(s.active.names)
  {
    var t := Sweep(s.(changed := false), ovs);
    SweepLive(s.(changed := false), ovs, ovs);
    if t.changed {
      SettleLive(t, ovs);
    } else {
      forall a | a in t.active.at ensures !Reduces(a, ovs) {
        ExhaustedIsDead(t.active.at.Keys, ovs, a);
      }
    }
  }

  /** There is a winner exactly if some active override can be used up, whatever the order of OVERRIDES. */
  lemma WinnerExists(pairs: seq<Pair>, ovs: seq<string>)
    requires forall o :: o in ovs ==> ':' !in o
    ensures Winner(pairs, ovs).Some? <==> exists p :: p in pairs && IsActive(p.1, ovs) && Reduces(p.1, ovs)
  {
    ActiveOfFacts(pairs, ovs);
    var s := Search(ActiveOf(pairs, ovs), None, false);
    SettleLive(s, ovs);
    forall o | o in s.active.at && Reduces(o, ovs)
        ensures exists p :: p in pairs && IsActive(p.1, ovs) && Reduces(p.1, ovs) {
      var i :| 0 <= i < |pairs| && pairs[i] == (s.active.at[o], o);
      assert pairs[i] in pairs;
    }
  }

  lemma {:induction false} CuttableReduces(a: string, ovs: seq<string>)
    requires Cuttable(a, ovs)
    ensures Reduces(a, ovs)
    decreases |a|
  {
    assert LastOf(a) in Parts(a);
    if ':' in a {
      LastEnds(a);
      RemovedShrinks(a, ":" + LastOf(a));
      CutStays(a, LastOf(a), ovs);
      CuttableReduces(Removed(a, ":" + LastOf(a)), ovs);
    } else {
      PartsPlain(a);
    }
  }

  /** An active override of two components can always be used up: there is nothing else to cut into. */
  lemma TwoComponents(a: string, b: string, ovs: seq<string>)
    requires ':' !in a && ':' !in b && a in ovs && b in ovs
    ensures Reduces(a + ":" + b, ovs)
  {
    var s := a + ":" + b;
    TwoParts(a, b);
    hide Parts, Removed, LastOf;
    assert Reduces(a, ovs);
    assert Removed(s, ":" + LastOf(s)) == a;
  }

  lemma TwoParts(a: string, b: string)
    requires ':' !in a && ':' !in b
    ensures var s := a + ":" + b; ':' in s && LastOf(s) == b && Removed(s, ":" + LastOf(s)) == a
  {
    hide Parts, Removed;
    var s := a + ":" + b;
    PartsSnoc(a, b);
    RemovedOnce(a, ":" + b);
    assert s == a + (":" + b) && s[|a|] == ':';
  }

  lemma {:induction false} RemovedOnce(a: string, part: string)
    requires ':' !in a && part != "" && part[0] == ':'
    ensures Removed(a + part, part) == a
  {
    hide Replaced;
    var s := a + part;
    if a == "" {
      assert s == part && part[|part|..] == "";
    } else {
      assert s[0] == a[0] && s[1..] == a[1..] + part;
      RemovedOnce(a[1..], part);
      assert a == [a[0]] + a[1..];
    }
  }

  /**
   Some active override supplies the value whenever there is one, if no component of an active
   override begins with another of its components.
   */
  lemma SomeActiveWins(pairs: seq<Pair>, ovs: seq<string>)
    requires forall o :: o in ovs ==> ':' !in o
    requires forall p :: p in pairs && IsActive(p.1, ovs) ==> Separate(Parts(p.1))
    ensures Winner(pairs, ovs).Some? <==> exists p :: p in pairs && IsActive(p.1, ovs)
  {
    WinnerExists(pairs, ovs);
    forall p | p in pairs && IsActive(p.1, ovs) ensures Reduces(p.1, ovs) {
      if p.1 in ovs {
        PartsPlain(p.1);
      }
      CuttableReduces(p.1, ovs);
    }
  }

  /** Without that proviso it may be lost: taking ":a" out of "x:ab:a" leaves "xb". */
  lemma LostOverride()
    ensures IsActive("x:ab:a", ["a", "ab", "x"]) && Winner([("V:x:ab:a", "x:ab:a")], ["a", "ab", "x"]) == None
  {
    ThreeParts();
    hide Parts, Winner;
    var ovs := ["a", "ab", "x"];
    assert "x:ab:a"[1] == ':';
    LoneEntry(ovs);
  }

  lemma ThreeParts()
    ensures Parts("x:ab:a") == ["x", "ab", "a"]
  {
    hide Parts;
    PartsPlain("a");
    PartsCons("ab", "a");
    PartsCons("x", "ab:a");
    assert "ab:a" == "ab" + ":" + "a" && "x:ab:a" == "x" + ":" + "ab:a";
  }

  lemma LoneEntry(ovs: seq<string>)
    requires ovs == ["a", "ab", "x"] && IsActive("x:ab:a", ovs)
    ensures Winner([("V:x:ab:a", "x:ab:a")], ovs) == None
  {
    hide IsActive, Visit, EndsWith, Removed;
    var a, pairs := "x:ab:a", [("V:x:ab:a", "x:ab:a")];
    assert ActiveOf(pairs[..0], ovs) == Dict([], map[]);
    assert ActiveOf(pairs, ovs) == Dict([a], map[a := "V:x:ab:a"]);
    var s := Search(Dict([a], map[a := "V:x:ab:a"]), None, false);
    LoneVisit(s);
    var t := Visit(s, "a", a);
    assert Sweep(s, ovs) == Sweep(t, ovs[1..]) by {
      assert [a][1..] == [];
    }
    var w := SweepPlain(t, ovs[1..]);
    w := SweepPlain(Sweep(t, ovs[1..]).(changed := false), ovs);
  }

  lemma LoneVisit(s: Search)
    requires s == Search(Dict(["x:ab:a"], map["x:ab:a" := "V:x:ab:a"]), None, false)
    ensures var t := Visit(s, "a", "x:ab:a"); t.active.at.Keys == {"xb"} && t.changed && t.found == None
  {
    hide Removed;
    Mangled();
    assert "x:ab:a"[4..] == ":a";
    assert EndsWith("x:ab:a", ":a");
    assert ":" + "a" == ":a";
  }

  lemma Mangled()
    ensures Removed("x:ab:a", ":a") == "xb"
  {
    hide Removed;
    RemovedUnfold("x:ab:a", ":a");
    RemovedUnfold(":ab:a", ":a");
    RemovedUnfold("b:a", ":a");
    RemovedUnfold(":a", ":a");
    RemovedUnfold("", ":a");
    assert "x:ab:a"[1..] == ":ab:a" && ":ab:a"[2..] == "b:a" && "b:a"[1..] == ":a" && ":a"[2..] == "";
    assert ":ab:a"[..2] == ":a";
    assert "x:ab:a"[0] != ':' && "b:a"[0] != ':';
  }

  lemma RemovedUnfold(s: string, part: string)
    requires part != ""
    ensures Removed(s, part) == if s == "" then ""
            else if part <= s then Removed(s[|part|..], part) else [s[0]] + Removed(s[1..], part)
  {
  }
}
