/** The string operations of Python that the models need. */
module Strings {
  import opened Collections

  // ---------- order ----------

  /** `a < b` on strings: by code point, a proper prefix first. */
  predicate Less(a: string, b: string) {
    b != "" && (a == "" || a[0] < b[0] || (a[0] == b[0] && Less(a[1..], b[1..])))
  }

  lemma {:induction false} LessTotal(a: string, b: string)
    ensures Less(a, b) || a == b || Less(b, a)
    ensures !(Less(a, b) && Less(b, a)) && !Less(a, a)
  {
    if a != "" {
      LessTotal(a[1..], a[1..]);
      if b != "" && a[0] == b[0] {
        LessTotal(a[1..], b[1..]);
        assert a == [a[0]] + a[1..] && b == [b[0]] + b[1..];
      }
    }
  }

  lemma {:induction false} LessTrans(a: string, b: string, c: string)
    requires Less(a, b) && Less(b, c)
    ensures Less(a, c)
  {
    if a != "" && a[0] == b[0] && b[0] == c[0] {
      LessTrans(a[1..], b[1..], c[1..]);
    }
  }

  /** A proper prefix comes first; otherwise the first place where two strings differ decides. */
  lemma {:induction false} LessMeans(a: string, b: string)
    ensures Less(a, b) <==> a < b || exists i :: 0 <= i < |a| && i < |b| && a[..i] == b[..i] && a[i] < b[i]
  {
    if a != "" && b != "" && a[0] == b[0] {
      LessMeans(a[1..], b[1..]);
      assert a == [a[0]] + a[1..] && b == [b[0]] + b[1..];
      if i :| 0 <= i < |a[1..]| && i < |b[1..]| && a[1..][..i] == b[1..][..i] && a[1..][i] < b[1..][i] {
        assert a[..i + 1] == [a[0]] + a[1..][..i] && b[..i + 1] == [b[0]] + b[1..][..i];
      }
      if i :| 0 <= i < |a| && i < |b| && a[..i] == b[..i] && a[i] < b[i] {
        assert a[1..][..i - 1] == a[..i][1..] && b[1..][..i - 1] == b[..i][1..];
      }
    } else if a != "" && b != "" {
      assert a[..0] == b[..0];
      assert forall i :: 0 < i < |a| && i < |b| && a[..i] == b[..i] ==> a[..i][0] == b[..i][0];
    }
  }

  ghost predicate Ascending(q: seq<string>) {
    forall i, j :: 0 <= i < j < |q| ==> Less(q[i], q[j])
  }

  lemma EmptyElems(q: seq<string>)
    ensures Elems(q) == {} <==> q == []
  {
    if q != [] {
      InElems(q, q[0]);
    }
  }

  /** Sorting leaves no choice: a set has only one ascending listing. */
  lemma {:induction false} AscendingUnique(p: seq<string>, q: seq<string>)
    requires Ascending(p) && Ascending(q) && Elems(p) == Elems(q)
    ensures p == q
  {
    EmptyElems(p);
    EmptyElems(q);
    if p != [] {
      assert p[0] in Elems(p);
      var i :| 0 <= i < |q| && q[i] == p[0];
      assert q[0] in Elems(q);
      var j :| 0 <= j < |p| && p[j] == q[0];
      LessTotal(p[0], q[0]);
      assert p[0] == q[0];
      TailElems(p);
      TailElems(q);
      AscendingUnique(p[1..], q[1..]);
      assert p == [p[0]] + p[1..] && q == [q[0]] + q[1..];
    }
  }

  lemma TailElems(q: seq<string>)
    requires q != [] && Ascending(q)
    ensures Elems(q[1..]) == Elems(q) - {q[0]} && Ascending(q[1..])
  {
    LessTotal(q[0], q[0]);
    assert q == [q[0]] + q[1..];
    forall i | 0 <= i < |q[1..]| ensures q[1..][i] != q[0] {
      assert q[1..][i] == q[i + 1];
    }
  }

  /** `sorted(s)` */
  method SortedSet(s: set<string>) returns (q: seq<string>)
    ensures Ascending(q) && Elems(q) == s
  {
    var order := Enumerate(s);
    q := [];
    for i := 0 to |order|
      invariant Ascending(q) && Elems(q) == Elems(order[..i])
    {
      var x := order[i];
      assert x !in Elems(order[..i]);
      q := Insert(q, x);
      assert order[..i + 1] == order[..i] + [x];
    }
    assert order[..|order|] == order;
  }

  method Insert(q: seq<string>, x: string) returns (r: seq<string>)
    requires Ascending(q) && x !in q
    ensures Ascending(r) && Elems(r) == Elems(q) + {x}
  {
    var k := 0;
    while k < |q| && Less(q[k], x)
      invariant 0 <= k <= |q|
      invariant forall i :: 0 <= i < k ==> Less(q[i], x)
    {
      k := k + 1;
    }
    r := q[..k] + [x] + q[k..];
    ElemsInsert(q, x, k);
    forall i | k <= i < |q| ensures Less(x, q[i]) {
      LessTotal(q[k], x);
      if i > k {
        LessTrans(x, q[k], q[i]);
      }
    }
    assert forall i :: 0 <= i < |r| ==> r[i] == if i < k then q[i] else if i == k then x else q[i - 1];
  }

  // ---------- searching and splitting ----------

  function StartsWith(s: string, prefix: string): bool {
    prefix <= s
  }

  /** Position of the first occurrence. */
  function IndexOf(s: string, part: string): Option<nat> {
    if part <= s then Some(0)
    else if s == "" then None
    else match IndexOf(s[1..], part)
      case None => None
      case Some(i) => Some(i + 1)
  }

  predicate Contains(s: string, part: string) {
    IndexOf(s, part).Some?
  }

  lemma {:induction false} IndexOfFound(s: string, part: string)
    ensures IndexOf(s, part).Some? ==>
              var i := IndexOf(s, part).value;
              i + |part| <= |s| && s[i..i + |part|] == part && (forall k :: 0 <= k < i ==> !(part <= s[k..]))
    ensures IndexOf(s, part).None? ==> forall k :: 0 <= k <= |s| ==> !(part <= s[k..])
  {
    if part <= s {
      assert s[0..] == s;
    } else if s != "" {
      IndexOfFound(s[1..], part);
      assert forall k :: 1 <= k <= |s| ==> s[1..][k - 1..] == s[k..];
      assert s[0..] == s;
      if IndexOf(s[1..], part).Some? {
        var i := IndexOf(s[1..], part).value;
        assert s[i + 1..i + 1 + |part|] == s[1..][i..i + |part|];
      }
    } else {
      assert s[0..] == s;
    }
  }

  /** A string that contains a part contains each of its characters. */
  lemma ContainsChars(s: string, part: string)
    requires Contains(s, part)
    ensures forall c :: c in part ==> c in s
  {
    IndexOfFound(s, part);
    var i := IndexOf(s, part).value;
    forall c | c in part ensures c in s {
      var k :| 0 <= k < |part| && part[k] == c;
      assert s[i..i + |part|][k] == s[i + k];
    }
  }

  /** `s.split(sep)[1]`, where the separator occurs. */
  function SecondPiece(s: string, sep: string): string
    requires sep != "" && Contains(s, sep)
  {
    IndexOfFound(s, sep);
    var rest := s[IndexOf(s, sep).value + |sep|..];
    match IndexOf(rest, sep)
      case None => rest
      case Some(k) => (IndexOfFound(rest, sep); rest[..k])
  }

  /** The part occurs at a place and nowhere before it. */
  ghost predicate FirstAt(s: string, part: string, i: nat) {
    i <= |s| && part <= s[i..] && forall k :: 0 <= k < i ==> !(part <= s[k..])
  }

  /** What stands between the first separator and the next one; without another, all that follows. */
  lemma SecondPieceBetween(s: string, sep: string) returns (i: nat)
    requires sep != "" && Contains(s, sep)
    ensures FirstAt(s, sep, i) && i + |sep| <= |s|
    ensures var rest := s[i + |sep|..];
            SecondPiece(s, sep) <= rest &&
            if Contains(rest, sep) then FirstAt(rest, sep, |SecondPiece(s, sep)|) else SecondPiece(s, sep) == rest
  {
    IndexOfFound(s, sep);
    i := IndexOf(s, sep).value;
    IndexOfFound(s[i + |sep|..], sep);
    assert sep <= s[i..];
  }

  /** `os.path.basename` */
  function Basename(path: string): string {
    if path == "" then ""
    else if path[|path| - 1] == '/' then ""
    else Basename(path[..|path| - 1]) + [path[|path| - 1]]
  }

  /** All that follows the last slash. */
  lemma {:induction false} BasenameIsLast(path: string)
    ensures exists dir :: path == dir + Basename(path) && (dir == "" || dir[|dir| - 1] == '/')
  {
    if path == "" || path[|path| - 1] == '/' {
      assert path == path + "";
    } else {
      BasenameIsLast(path[..|path| - 1]);
      var dir :| path[..|path| - 1] == dir + Basename(path[..|path| - 1]) && (dir == "" || dir[|dir| - 1] == '/');
      assert path == path[..|path| - 1] + [path[|path| - 1]] == dir + Basename(path);
    }
  }

  lemma {:induction false} BasenameHasNoSlash(path: string)
    ensures '/' !in Basename(path)
  {
    if path != "" && path[|path| - 1] != '/' {
      BasenameHasNoSlash(path[..|path| - 1]);
    }
  }

  /** `s.split(":")` */
  function Parts(s: string): (p: seq<string>)
    ensures p != []
  {
    if s == "" then [""]
    else if s[0] == ':' then [""] + Parts(s[1..])
    else [[s[0]] + Parts(s[1..])[0]] + Parts(s[1..])[1..]
  }

  lemma {:induction false} PartsPlain(o: string)
    requires ':' !in o
    ensures Parts(o) == [o]
  {
    if o != "" {
      PartsPlain(o[1..]);
      assert o == [o[0]] + o[1..];
    }
  }

  lemma {:induction false} PartsJoin(o: string, t: string)
    requires ':' !in o
    ensures Parts(o + t) == [o + Parts(t)[0]] + Parts(t)[1..]
  {
    if o == "" {
      assert o + t == t && "" + Parts(t)[0] == Parts(t)[0];
    } else {
      assert (o + t)[1..] == o[1..] + t;
      PartsJoin(o[1..], t);
      assert o == [o[0]] + o[1..];
      assert [o[0]] + (o[1..] + Parts(t)[0]) == o + Parts(t)[0];
    }
  }

  /** `":".join(p)` */
  function JoinParts(p: seq<string>): string
  {
    if p == [] then "" else if |p| == 1 then p[0] else p[0] + ":" + JoinParts(p[1..])
  }

  lemma {:induction false} JoinOfParts(s: string)
    ensures JoinParts(Parts(s)) == s
  {
    if s != "" {
      var p := Parts(s[1..]);
      JoinOfParts(s[1..]);
      assert s == [s[0]] + s[1..];
      if s[0] == ':' {
        JoinCons("", p);
        assert "" + ":" + s[1..] == [s[0]] + s[1..];
      } else {
        JoinPush(s[0], p);
      }
    }
  }

  lemma JoinCons(o: string, p: seq<string>)
    requires p != []
    ensures JoinParts([o] + p) == o + ":" + JoinParts(p)
  {
    assert ([o] + p)[1..] == p;
  }

  lemma JoinPush(c: char, p: seq<string>)
    requires p != []
    ensures JoinParts([[c] + p[0]] + p[1..]) == [c] + JoinParts(p)
  {
    if |p| > 1 {
      JoinCons([c] + p[0], p[1..]);
      JoinCons(p[0], p[1..]);
      assert p == [p[0]] + p[1..];
      assert [c] + p[0] + ":" + JoinParts(p[1..]) == [c] + (p[0] + ":" + JoinParts(p[1..]));
    }
  }

  /** Splitting what a piece without colons was put before. */
  lemma PartsCons(o: string, t: string)
    requires ':' !in o
    ensures Parts(o + ":" + t) == [o] + Parts(t)
  {
    PartsJoin(o, ":" + t);
    assert o + ":" + t == o + (":" + t);
    assert (":" + t)[1..] == t;
    assert Parts(":" + t) == [""] + Parts(t);
    assert o + "" == o;
  }

  /** Taking the pieces apart at the last colon. */
  lemma {:induction false} PartsSnoc(c: string, fn: string)
    requires ':' !in fn
    ensures Parts(c + ":" + fn) == Parts(c) + [fn]
  {
    var s := c + ":" + fn;
    if c == "" {
      assert s[1..] == fn && s[0] == ':';
      PartsPlain(fn);
    } else {
      assert s[1..] == c[1..] + ":" + fn && s[0] == c[0];
      PartsSnoc(c[1..], fn);
      assert (Parts(c[1..]) + [fn])[1..] == Parts(c[1..])[1..] + [fn];
    }
  }

  // ---------- replacing ----------

  /** `s.replace(part, put)`: an empty part is found before and after every character. */
  function Replaced(s: string, part: string, put: string): string {
    if part == "" then put + Between(s, put)
    else if s == "" then ""
    else if part <= s then put + Replaced(s[|part|..], part, put)
    else [s[0]] + Replaced(s[1..], part, put)
  }

  function Between(s: string, put: string): string {
    if s == "" then "" else [s[0]] + put + Between(s[1..], put)
  }

  lemma {:induction false} ReplacedNotEmpty(s: string, part: string, put: string)
    requires s != "" && put != ""
    ensures Replaced(s, part, put) != ""
  {
  }

  lemma {:induction false} ReplacedShrinks(s: string, part: string, put: string)
    requires |put| < |part|
    ensures |Replaced(s, part, put)| <= |s| && (part <= s ==> |Replaced(s, part, put)| < |s|)
  {
    if part <= s {
      ReplacedShrinks(s[|part|..], part, put);
    } else if s != "" {
      ReplacedShrinks(s[1..], part, put);
    }
  }

  /** What becomes of a name that goes on after the part that is replaced. */
  lemma ReplacedPrefix(s: string, part: string, put: string)
    requires part < s
    ensures put <= Replaced(s, part, put) && (put != "" ==> put < Replaced(s, part, put))
    ensures |put| < |part| ==> |Replaced(s, part, put)| < |s|
  {
    if part != "" && put != "" {
      ReplacedNotEmpty(s[|part|..], part, put);
    }
    if |put| < |part| {
      ReplacedShrinks(s, part, put);
    }
  }

  lemma {:induction false} ReplacedAbsent(s: string, part: string, put: string)
    requires !Contains(s, part)
    ensures Replaced(s, part, put) == s
  {
    if s != "" {
      ReplacedAbsent(s[1..], part, put);
    }
  }
}
