/** Sequences used as Python lists, and dictionaries whose iteration order is left open. */
module Collections {

  datatype Option<+T> = None | Some(value: T) {
    function GetOr(default: T): T {
      if Some? then value else default
    }
  }

  function Elems<T>(s: seq<T>): set<T> {
    set x | x in s
  }

  /** No element is listed twice. */
  ghost predicate NoDup<T>(s: seq<T>) {
    forall i, j :: 0 <= i < j < |s| ==> s[i] != s[j]
  }

  /** The elements of s outside x, in their order. */
  function Without<T(==)>(s: seq<T>, x: set<T>): seq<T> {
    if s == [] then []
    else (if s[0] in x then [] else [s[0]]) + Without(s[1..], x)
  }

  lemma {:induction false} WithoutElems<T>(s: seq<T>, x: set<T>)
    ensures forall e :: e in Without(s, x) <==> e in s && e !in x
    ensures NoDup(s) ==> NoDup(Without(s, x))
    ensures (forall e :: e in s ==> e in x) ==> Without(s, x) == []
  {
    if s == [] {
    } else {
      WithoutElems(s[1..], x);
      assert s == [s[0]] + s[1..];
      var rest := Without(s[1..], x);
      if NoDup(s) {
        assert forall i, j :: 0 <= i < j < |s[1..]| ==> s[1..][i] == s[i + 1] && s[1..][j] == s[j + 1];
        assert NoDup(s[1..]);
        assert s[0] !in s[1..];
      }
    }
  }

  lemma {:induction false} WithoutTwice<T>(s: seq<T>, x: set<T>, y: set<T>)
    ensures Without(Without(s, x), y) == Without(s, x + y)
  {
    if s == [] {
    } else {
      WithoutTwice(s[1..], x, y);
      var rest := Without(s[1..], x);
      if s[0] !in x {
        assert ([s[0]] + rest)[1..] == rest;
      } else {
        assert [] + rest == rest;
      }
    }
  }

  /** Filtering by two sets that agree on the list gives the same list. */
  lemma {:induction false} WithoutAgree<T>(s: seq<T>, x: set<T>, y: set<T>)
    requires forall e :: e in s ==> (e in x <==> e in y)
    ensures Without(s, x) == Without(s, y)
  {
    if s == [] {
    } else {
      assert forall e :: e in s[1..] ==> e in s;
      WithoutAgree(s[1..], x, y);
    }
  }

  lemma {:induction false} WithoutNone<T>(s: seq<T>, x: set<T>)
    requires forall e :: e in s ==> e !in x
    ensures Without(s, x) == s
  {
    if s == [] {
    } else {
      assert forall e :: e in s[1..] ==> e in s;
      WithoutNone(s[1..], x);
    }
  }

  /** `list.remove(x)`: drop the first occurrence. */
  function RemoveFirst<T(==)>(s: seq<T>, x: T): seq<T>
    requires x in s
  {
    if s[0] == x then s[1..] else [s[0]] + RemoveFirst(s[1..], x)
  }

  lemma {:induction false} RemoveFirstIsWithout<T>(s: seq<T>, x: T)
    requires x in s && NoDup(s)
    ensures RemoveFirst(s, x) == Without(s, {x})
  {
    assert s == [s[0]] + s[1..];
    if s[0] == x {
      forall e | e in s[1..] ensures e != x {
        var i :| 0 <= i < |s[1..]| && s[1..][i] == e;
        assert s[i + 1] == e;
      }
      WithoutNone(s[1..], {x});
    } else {
      assert NoDup(s[1..]) by {
        assert forall i, j :: 0 <= i < j < |s[1..]| ==> s[1..][i] == s[i + 1] && s[1..][j] == s[j + 1];
      }
      RemoveFirstIsWithout(s[1..], x);
    }
  }

  /** The members of s, each listed once, in an order the caller may not rely on. */
  method Enumerate<T(==)>(s: set<T>) returns (q: seq<T>)
    ensures NoDup(q) && Elems(q) == s
  {
    q := [];
    var rest := s;
    while rest != {}
      invariant NoDup(q) && Elems(q) !! rest && Elems(q) + rest == s
      decreases rest
    {
      var x :| x in rest;
      rest := rest - {x};
      assert x !in Elems(q);
      q := q + [x];
    }
  }

  lemma SmallerCard<T>(a: set<T>, b: set<T>)
    requires a < b
    ensures |a| < |b|
  {
    assert b == a + (b - a);
    var x :| x in b && x !in a;
    assert x in b - a;
  }

  lemma CardMonotone<T>(a: set<T>, b: set<T>)
    requires a <= b
    ensures |a| <= |b|
  {
    if a != b {
      SmallerCard(a, b);
    }
  }

  lemma NoDupPush<T>(s: seq<T>, x: T)
    requires NoDup(s) && x !in s
    ensures NoDup(s + [x])
  {
  }

  lemma ElemsPush<T>(s: seq<T>, x: T)
    ensures Elems(s + [x]) == Elems(s) + {x}
  {
  }

  lemma InElems<T>(s: seq<T>, x: T)
    ensures x in Elems(s) <==> x in s
  {
  }

  lemma {:induction false} WithoutPush<T>(s: seq<T>, e: T, x: set<T>)
    ensures Without(s + [e], x) == Without(s, x) + (if e in x then [] else [e])
  {
    if s == [] {
      assert ([] + [e])[1..] == [];
    } else {
      assert (s + [e])[1..] == s[1..] + [e];
      WithoutPush(s[1..], e, x);
    }
  }

  lemma ElemsPlus<T>(a: seq<T>, b: seq<T>)
    ensures Elems(a + b) == Elems(a) + Elems(b)
  {
  }

  lemma ElemsInsert<T>(s: seq<T>, x: T, k: nat)
    requires k <= |s|
    ensures Elems(s[..k] + [x] + s[k..]) == Elems(s) + {x}
  {
    hide Elems;
    assert s == s[..k] + s[k..];
    ElemsPlus(s[..k], s[k..]);
    ElemsPush(s[..k], x);
    ElemsPlus(s[..k] + [x], s[k..]);
  }

  lemma NoDupPrepend<T>(x: T, s: seq<T>)
    requires NoDup(s) && x !in s
    ensures NoDup([x] + s)
  {
  }
}
