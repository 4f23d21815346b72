/** Comparing two lists of file checksums that may name a file more than once. */
module ChecksumDiff {
  import opened Collections

  type Pair = (string, string)

  datatype Change = Change(name: string, was: string, now: string)

  /** A `Counter`: a missing key counts 0, and `subtract` may go below. */
  type Counter = map<Pair, int>

  function At(c: Counter, x: Pair): int {
    if x in c then c[x] else 0
  }

  function Times<T(==)>(s: seq<T>, x: T): nat {
    multiset(s)[x]
  }

  lemma TimesPush<T>(s: seq<T>, e: T, x: T)
    ensures Times(s + [e], x) == Times(s, x) + if e == x then 1 else 0
  {
  }

  lemma TimesSplit<T>(s: seq<T>, i: nat, x: T)
    requires i < |s|
    ensures Times(s[i..], x) == Times(s[i + 1..], x) + if s[i] == x then 1 else 0
  {
    assert s[i..] == [s[i]] + s[i + 1..];
  }

  lemma TimesNone<T>(x: T)
    ensures Times([], x) == 0
  {
  }

  /** How many more often x occurs in s than in t. */
  function Surplus(s: seq<Pair>, t: seq<Pair>, x: Pair): nat {
    if Times(s, x) > Times(t, x) then Times(s, x) - Times(t, x) else 0
  }

  /** `Counter(s)` followed by `subtract(t)` */
  method Count(s: seq<Pair>, t: seq<Pair>) returns (c: Counter)
    ensures forall x :: At(c, x) == Times(s, x) - Times(t, x)
  {
    hide Times;
    c := map[];
    forall x: Pair ensures Times(s[..0], x) == 0 {
      assert s[..0] == [];
      TimesNone(x);
    }
    for i := 0 to |s|
      invariant forall x :: At(c, x) == Times(s[..i], x)
    {
      ghost var was := c;
      c := c[s[i] := At(c, s[i]) + 1];
      forall x ensures At(c, x) == Times(s[..i + 1], x) {
        assert s[..i + 1] == s[..i] + [s[i]];
        TimesPush(s[..i], s[i], x);
      }
    }
    assert s[..|s|] == s;
    forall x: Pair ensures Times(t[..0], x) == 0 {
      assert t[..0] == [];
      TimesNone(x);
    }
    for i := 0 to |t|
      invariant forall x :: At(c, x) == Times(s, x) - Times(t[..i], x)
    {
      c := c[t[i] := At(c, t[i]) - 1];
      forall x ensures At(c, x) == Times(s, x) - Times(t[..i + 1], x) {
        assert t[..i + 1] == t[..i] + [t[i]];
        TimesPush(t[..i], t[i], x);
      }
    }
    assert t[..|t|] == t;
  }

  /** The occurrences in b that a has no counterpart for. */
  method Added(a: seq<Pair>, b: seq<Pair>) returns (added: seq<Pair>)
    ensures forall x :: Times(added, x) == Surplus(b, a, x)
  {
    hide Times;
    var count := Count(b, a);
    added := [];
    forall x: Pair ensures Times(added, x) == 0 && Times(b[0..], x) == Times(b, x) {
      TimesNone(x);
      assert b[0..] == b;
    }
    for i := 0 to |b|
      invariant forall x :: Times(added, x) + Positive(At(count, x)) == Surplus(b, a, x)
      invariant forall x :: At(count, x) <= Times(b[i..], x)
    {
      var x := b[i];
      ghost var was, left := added, count;
      if At(count, x) > 0 {
        count := count[x := At(count, x) - 1];
        added := added + [x];
      }
      forall y
        ensures Times(added, y) + Positive(At(count, y)) == Surplus(b, a, y)
        ensures At(count, y) <= Times(b[i + 1..], y)
      {
        TimesPush(was, x, y);
        TimesSplit(b, i, y);
      }
    }
    forall x ensures Times(added, x) == Surplus(b, a, x) {
      assert b[|b|..] == [];
      TimesNone(x);
      assert At(count, x) <= Times(b[|b|..], x);
    }
  }

  function Positive(n: int): nat {
    if n > 0 then n else 0
  }

  // ---------- matching the differences by name ----------

  function Olds(cs: seq<Change>): seq<Pair> {
    seq(|cs|, i requires 0 <= i < |cs| => (cs[i].name, cs[i].was))
  }

  function News(cs: seq<Change>): seq<Pair> {
    seq(|cs|, i requires 0 <= i < |cs| => (cs[i].name, cs[i].now))
  }

  function Names(ps: seq<Pair>): seq<string> {
    seq(|ps|, i requires 0 <= i < |ps| => ps[i].0)
  }

  /** The first pair of that name, if any. */
  method FindName(ps: seq<Pair>, name: string) returns (k: nat)
    ensures k <= |ps| && (k < |ps| ==> ps[k].0 == name)
    ensures forall i :: 0 <= i < k ==> ps[i].0 != name
  {
    k := 0;
    while k < |ps| && ps[k].0 != name
      invariant 0 <= k <= |ps|
      invariant forall i :: 0 <= i < k ==> ps[i].0 != name
    {
      k := k + 1;
    }
  }

  lemma {:induction false} RemoveFirstTimes(ps: seq<Pair>, y: Pair, x: Pair)
    requires y in ps
    ensures Times(RemoveFirst(ps, y), x) == Times(ps, x) - if x == y then 1 else 0
  {
    assert ps == [ps[0]] + ps[1..];
    if ps[0] != y {
      RemoveFirstTimes(ps[1..], y, x);
    }
  }

  lemma {:induction false} RemoveFirstMembers(ps: seq<Pair>, y: Pair)
    requires y in ps
    ensures forall x :: x in RemoveFirst(ps, y) ==> x in ps
  {
    assert ps == [ps[0]] + ps[1..];
    if ps[0] != y {
      RemoveFirstMembers(ps[1..], y);
    }
  }

  /** Everything in the two differences is accounted for, and what was matched really changed. */
  ghost predicate Accounted(a: seq<Pair>, b: seq<Pair>, changed: seq<Change>, added: seq<Pair>, removed: seq<Pair>) {
    && (forall x :: Times(Olds(changed), x) + Times(removed, x) == Surplus(a, b, x))
    && (forall x :: Times(News(changed), x) + Times(added, x) == Surplus(b, a, x))
    && (forall x, y :: x in added && y in removed ==> x.0 != y.0)
    && (forall c :: c in changed ==> c.was != c.now)
  }

  lemma OldsPush(cs: seq<Change>, c: Change, x: Pair)
    ensures Times(Olds(cs + [c]), x) == Times(Olds(cs), x) + if (c.name, c.was) == x then 1 else 0
    ensures Times(News(cs + [c]), x) == Times(News(cs), x) + if (c.name, c.now) == x then 1 else 0
  {
    assert Olds(cs + [c]) == Olds(cs) + [(c.name, c.was)];
    assert News(cs + [c]) == News(cs) + [(c.name, c.now)];
    TimesPush(Olds(cs), (c.name, c.was), x);
    TimesPush(News(cs), (c.name, c.now), x);
  }

  lemma MemberTimes(ps: seq<Pair>, x: Pair)
    ensures x in ps <==> Times(ps, x) > 0
  {
  }

  /** The state of the matching loop before position i. */
  ghost predicate Matching(a: seq<Pair>, b: seq<Pair>, i: nat, count: Counter, changed: seq<Change>, added: seq<Pair>,
      removed: seq<Pair>)
    requires i <= |a|
  {
    && (forall x :: Times(Olds(changed), x) + Times(removed, x) + Positive(At(count, x)) == Surplus(a, b, x))
    && (forall x :: At(count, x) <= Times(a[i..], x))
    && (forall x :: Times(News(changed), x) + Times(added, x) == Surplus(b, a, x))
    && (forall x, y :: x in added && y in removed ==> x.0 != y.0)
    && (forall c :: c in changed ==> c.was != c.now)
  }

  method Match(a: seq<Pair>, b: seq<Pair>) returns (changed: seq<Change>, added: seq<Pair>, removed: seq<Pair>)
    ensures Accounted(a, b, changed, added, removed)
  {
    hide Times, Surplus;
    var count := Count(a, b);
    added := Added(a, b);
    removed, changed := [], [];
    MatchingStart(a, b, count, added);
    for i := 0 to |a|
      invariant Matching(a, b, i, count, changed, added, removed)
    {
      count, changed, added, removed := MatchOne(a, b, i, count, changed, added, removed);
    }
    forall x: Pair ensures Positive(At(count, x)) == 0 {
      assert a[|a|..] == [];
      TimesNone(x);
    }
  }

  lemma MatchingStart(a: seq<Pair>, b: seq<Pair>, count: Counter, added: seq<Pair>)
    requires forall x :: At(count, x) == Times(a, x) - Times(b, x)
    requires forall x :: Times(added, x) == Surplus(b, a, x)
    ensures Matching(a, b, 0, count, [], added, [])
  {
    forall x: Pair
      ensures Times(Olds([]), x) == 0 && Times(News([]), x) == 0 && Times([], x) == 0 && Times(a[0..], x) == Times(a, x)
    {
      assert Olds([]) == [] && News([]) == [] && a[0..] == a;
      TimesNone(x);
    }
  }

  /** One turn of the loop: a surplus pair of a is matched with the first added pair of its name, or is removed. */
  method MatchOne(a: seq<Pair>, b: seq<Pair>, i: nat, count0: Counter, changed0: seq<Change>, added0: seq<Pair>,
      removed0: seq<Pair>)
    returns (count: Counter, changed: seq<Change>, added: seq<Pair>, removed: seq<Pair>)
    requires i < |a| && Matching(a, b, i, count0, changed0, added0, removed0)
    ensures Matching(a, b, i + 1, count, changed, added, removed)
  {
    hide Times;
    var x := a[i];
    count, changed, added, removed := count0, changed0, added0, removed0;
    if At(count, x) > 0 {
      count := count[x := At(count, x) - 1];
      var k := FindName(added, x.0);
      if k < |added| {
        var y := added[k];
        MemberTimes(added, y);
        assert x.1 != y.1;
        RemoveFirstMembers(added, y);
        changed := changed + [Change(x.0, x.1, y.1)];
        added := RemoveFirst(added, y);
        forall z
          ensures Times(Olds(changed), z) == Times(Olds(changed0), z) + if x == z then 1 else 0
          ensures Times(News(changed), z) + Times(added, z) == Times(News(changed0), z) + Times(added0, z)
        {
          OldsPush(changed0, Change(x.0, x.1, y.1), z);
          RemoveFirstTimes(added0, y, z);
        }
      } else {
        removed := removed + [x];
        forall z ensures Times(removed, z) == Times(removed0, z) + if x == z then 1 else 0 {
          TimesPush(removed0, x, z);
        }
      }
    }
    forall z ensures At(count, z) <= Times(a[i + 1..], z) {
      TimesSplit(a, i, z);
    }
  }

  // ---------- the difference of the lists, by name ----------

  /** Pairs of a that are matched one to one with equal pairs of b. */
  function Common(a: seq<Pair>, b: seq<Pair>): seq<Pair> {
    if a == [] then []
    else if a[0] in b then [a[0]] + Common(a[1..], RemoveFirst(b, a[0]))
    else Common(a[1..], b)
  }

  /** Common is the multiset intersection. */
  lemma {:induction false} CommonTimes(a: seq<Pair>, b: seq<Pair>, x: Pair)
    ensures Times(Common(a, b), x) == if Times(a, x) < Times(b, x) then Times(a, x) else Times(b, x)
  {
    if a != [] {
      assert a == [a[0]] + a[1..];
      if a[0] in b {
        RemoveFirstTimes(b, a[0], x);
        CommonTimes(a[1..], RemoveFirst(b, a[0]), x);
        var rest := Common(a[1..], RemoveFirst(b, a[0]));
        assert Times([a[0]] + rest, x) == Times(rest, x) + if a[0] == x then 1 else 0;
      } else {
        CommonTimes(a[1..], b, x);
      }
    }
  }

  lemma {:induction false} RemoveFirstNames(q: seq<Pair>, y: Pair)
    requires y in q
    ensures multiset(q) == multiset(RemoveFirst(q, y)) + multiset{y}
    ensures multiset(Names(q)) == multiset(Names(RemoveFirst(q, y))) + multiset{y.0}
  {
    var t := q[1..];
    assert q == [q[0]] + t;
    assert Names(q) == [q[0].0] + Names(t);
    if q[0] != y {
      RemoveFirstNames(t, y);
      var rest := RemoveFirst(t, y);
      assert Names([q[0]] + rest) == [q[0].0] + Names(rest);
    }
  }

  lemma {:induction false} NamesOfPermutation(p: seq<Pair>, q: seq<Pair>)
    requires multiset(p) == multiset(q)
    ensures multiset(Names(p)) == multiset(Names(q))
  {
    if p == [] {
      assert |multiset(q)| == 0;
      assert q == [];
    } else {
      assert p == [p[0]] + p[1..];
      assert p[0] in multiset(p);
      RemoveFirstNames(q, p[0]);
      assert multiset(p[1..]) == multiset(p) - multiset{p[0]};
      assert multiset(RemoveFirst(q, p[0])) == multiset(q) - multiset{p[0]};
      NamesOfPermutation(p[1..], RemoveFirst(q, p[0]));
      assert Names(p) == [p[0].0] + Names(p[1..]);
    }
  }

  lemma TimesPlus<T>(s: seq<T>, t: seq<T>, x: T)
    ensures Times(s + t, x) == Times(s, x) + Times(t, x)
  {
  }

  lemma SameTimes(p: seq<Pair>, q: seq<Pair>)
    requires forall x :: Times(p, x) == Times(q, x)
    ensures multiset(p) == multiset(q)
  {
    forall x: Pair ensures multiset(p)[x] == multiset(q)[x] {
      assert Times(p, x) == Times(q, x);
    }
  }

  /** One list is what both have in common, what changed on its side, and what only it has. */
  lemma Splits(a: seq<Pair>, b: seq<Pair>, mine: seq<Pair>, rest: seq<Pair>)
    requires forall x :: Times(mine, x) + Times(rest, x) == Surplus(a, b, x)
    ensures multiset(a) == multiset(Common(a, b) + mine + rest)
    ensures multiset(Names(a)) == multiset(Names(Common(a, b)) + Names(mine) + Names(rest))
  {
    hide Times;
    forall x ensures Times(a, x) == Times(Common(a, b) + mine + rest, x) {
      CommonTimes(a, b, x);
      TimesPlus(Common(a, b), mine, x);
      TimesPlus(Common(a, b) + mine, rest, x);
    }
    SameTimes(a, Common(a, b) + mine + rest);
    NamesOfPermutation(a, Common(a, b) + mine + rest);
    assert Names(Common(a, b) + mine + rest) == Names(Common(a, b)) + Names(mine) + Names(rest);
  }

  /** Common does not depend, as a multiset, on which list comes first. */
  lemma CommonSymmetric(a: seq<Pair>, b: seq<Pair>)
    ensures multiset(Common(a, b)) == multiset(Common(b, a)) &&
            multiset(Names(Common(a, b))) == multiset(Names(Common(b, a)))
  {
    forall x ensures Times(Common(a, b), x) == Times(Common(b, a), x) {
      CommonTimes(a, b, x);
      CommonTimes(b, a, x);
    }
    SameTimes(Common(a, b), Common(b, a));
    NamesOfPermutation(Common(a, b), Common(b, a));
  }

  method FileChecksumsDiff(a: seq<Pair>, b: seq<Pair>)
      returns (changed: seq<Change>, added: seq<string>, removed: seq<string>)
    ensures multiset(Names(a)) == multiset(Names(Common(a, b)) + Names(Olds(changed)) + removed)
    ensures multiset(Names(b)) == multiset(Names(Common(a, b)) + Names(News(changed)) + added)
    ensures forall n :: n in added ==> n !in removed
    ensures forall c :: c in changed ==> (c.name, c.was) in a && (c.name, c.now) in b && c.was != c.now
  {
    hide Times;
    var plus, minus;
    changed, plus, minus := Match(a, b);
    Splits(a, b, Olds(changed), minus);
    Splits(b, a, News(changed), plus);
    CommonSymmetric(a, b);
    added, removed := Names(plus), Names(minus);
    forall c | c in changed ensures (c.name, c.was) in a && (c.name, c.now) in b {
      var i :| 0 <= i < |changed| && changed[i] == c;
      assert Olds(changed)[i] == (c.name, c.was) && News(changed)[i] == (c.name, c.now);
      assert (c.name, c.was) in multiset(Common(a, b) + Olds(changed) + minus);
      assert (c.name, c.now) in multiset(Common(b, a) + News(changed) + plus);
    }
    forall i, j | 0 <= i < |plus| && 0 <= j < |minus| ensures added[i] != removed[j] {
      assert plus[i] in plus && minus[j] in minus;
    }
  }
}
