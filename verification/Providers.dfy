/** Choosing among the recipes that provide the same thing. */
module Providers {
  import opened Collections
  import opened Strings

  type File = string
  type Pn = string

  /** Epoch, version and revision. */
  datatype Version = Version(pe: string, pv: string, pr: string)

  /** What a version setting asks for, once it has been taken apart; parts left out match anything. */
  datatype Wanted = Wanted(e: Option<string>, v: string, r: Option<string>)

  /**
   What is known of each recipe file. vercmp is the version comparison, parse the splitting
   of a version setting; required and preferred are the settings in force for a package.
   */
  datatype Cache = Cache(
    priority: File -> int,            // of the layer the file comes from
    preference: File -> int,          // DEFAULT_PREFERENCE
    version: File -> Version,
    pn: File -> Pn,
    vercmp: (Version, Version) -> int,
    parse: string -> Wanted,
    required: Pn -> Option<string>,
    preferred: Pn -> Option<string>)

  /** vercmp orders versions, any two of them, up to equivalence. */
  ghost predicate TotalPreorder(c: Cache) {
    && (forall x, y :: c.vercmp(x, y) < 0 <==> c.vercmp(y, x) > 0)
    && (forall x, y, z :: c.vercmp(x, y) <= 0 && c.vercmp(y, z) <= 0 ==> c.vercmp(x, z) <= 0)
  }

  // ---------- grouping by layer ----------

  function Flatten(groups: seq<seq<File>>): seq<File> {
    if groups == [] then [] else groups[0] + Flatten(groups[1..])
  }

  /** The files of one layer priority and one default preference, in the order given. */
  function Select(c: Cache, files: seq<File>, pri: int, pref: int): seq<File> {
    if files == [] then []
    else
      var rest := Select(c, files[..|files| - 1], pri, pref);
      var f := files[|files| - 1];
      if c.priority(f) == pri && c.preference(f) == pref then rest + [f] else rest
  }

  lemma {:induction false} SelectMembers(c: Cache, files: seq<File>, pri: int, pref: int)
    ensures forall f :: f in Select(c, files, pri, pref) <==>
            f in files && c.priority(f) == pri && c.preference(f) == pref
    ensures (forall f :: f in files ==> c.priority(f) != pri || c.preference(f) != pref) ==>
            Select(c, files, pri, pref) == []
    ensures (forall f :: f in files ==> c.priority(f) == pri && c.preference(f) == pref) ==>
            Select(c, files, pri, pref) == files
  {
    if files != [] {
      var t := files[..|files| - 1];
      SelectMembers(c, t, pri, pref);
      assert files == t + [files[|files| - 1]];
    }
  }

  lemma {:induction false} SelectPlus(c: Cache, a: seq<File>, b: seq<File>, pri: int, pref: int)
    ensures Select(c, a + b, pri, pref) == Select(c, a, pri, pref) + Select(c, b, pri, pref)
  {
    if b == [] {
      assert a + b == a;
    } else {
      var k := |b| - 1;
      assert (a + b)[..|a + b| - 1] == a + b[..k];
      SelectPlus(c, a, b[..k], pri, pref);
    }
  }

  /** Within a group one layer, by ascending preference; groups by strictly descending layer. */
  ghost predicate Ordered(c: Cache, groups: seq<seq<File>>) {
    && (forall g :: 0 <= g < |groups| ==> groups[g] != [] && SameLayer(c, groups[g]))
    && (forall g, h :: 0 <= g < h < |groups| ==> LayerOf(c, groups[g]) > LayerOf(c, groups[h]))
  }

  ghost predicate SameLayer(c: Cache, group: seq<File>) {
    && (forall i :: 0 <= i < |group| ==> c.priority(group[i]) == LayerOf(c, group))
    && (forall i, j :: 0 <= i < j < |group| ==> c.preference(group[i]) <= c.preference(group[j]))
  }

  function LayerOf(c: Cache, group: seq<File>): int {
    if group == [] then 0 else c.priority(group[0])
  }

  /** Nothing is lost or repeated, and equals keep their order. */
  ghost predicate Regrouped(c: Cache, files: seq<File>, flat: seq<File>) {
    forall pri, pref :: Select(c, flat, pri, pref) == Select(c, files, pri, pref)
  }

  lemma RegroupedMembers(c: Cache, files: seq<File>, flat: seq<File>)
    requires Regrouped(c, files, flat)
    ensures forall f :: f in flat <==> f in files
  {
    forall f ensures f in flat <==> f in files {
      SelectMembers(c, files, c.priority(f), c.preference(f));
      SelectMembers(c, flat, c.priority(f), c.preference(f));
      assert f in Select(c, files, c.priority(f), c.preference(f)) <==> f in files;
    }
  }

  /** The dictionary of dictionaries that the grouping builds first. */
  type Table = map<int, map<int, seq<File>>>

  ghost predicate Tabulated(c: Cache, files: seq<File>, t: Table) {
    && (forall pri, pref :: pri in t && pref in t[pri] ==>
       t[pri][pref] == Select(c, files, pri, pref) && t[pri][pref] != [])
    && (forall f :: f in files ==> c.priority(f) in t && c.preference(f) in t[c.priority(f)])
    && (forall pri :: pri in t ==> t[pri] != map[])
  }

  lemma NotTabulated(c: Cache, files: seq<File>, t: Table, pri: int, pref: int)
    requires Tabulated(c, files, t) && !(pri in t && pref in t[pri])
    ensures Select(c, files, pri, pref) == []
  {
    SelectMembers(c, files, pri, pref);
  }

  /** One more file in its cell. */
  lemma TabulatedStep(c: Cache, files: seq<File>, t: Table, f: File, row: map<int, seq<File>>, t': Table)
    requires Tabulated(c, files, t)
    requires row == if c.priority(f) in t then t[c.priority(f)] else map[]
    requires t' == t[c.priority(f) :=
             row[c.preference(f) := (if c.preference(f) in row then row[c.preference(f)] else []) + [f]]]
    ensures Tabulated(c, files + [f], t')
  {
    var pri, pref := c.priority(f), c.preference(f);
    assert (files + [f])[..|files|] == files;
    if pref !in row {
      NotTabulated(c, files, t, pri, pref);
    }
    forall p, q | p in t' && q in t'[p]
      ensures t'[p][q] == Select(c, files + [f], p, q) && t'[p][q] != []
    {
      if p == pri && q == pref {
      } else {
        assert p in t && q in t[p] && t'[p][q] == t[p][q];
      }
    }
    forall g | g in files + [f] ensures c.priority(g) in t' && c.preference(g) in t'[c.priority(g)] {
      assert g in files || g == f;
    }
  }

  method Tabulate(c: Cache, files: seq<File>) returns (t: Table)
    ensures Tabulated(c, files, t)
  {
    t := map[];
    for i := 0 to |files|
      invariant Tabulated(c, files[..i], t)
    {
      var f := files[i];
      var pri, pref := c.priority(f), c.preference(f);
      assert files[..i + 1][..i] == files[..i];
      assert files[..i + 1] == files[..i] + [f];
      var row := if pri in t then t[pri] else map[];
      ghost var was := t;
      t := t[pri := row[pref := (if pref in row then row[pref] else []) + [f]]];
      TabulatedStep(c, files[..i], was, f, row, t);
    }
    assert files[..|files|] == files;
  }

  ghost predicate AscendingInts(q: seq<int>) {
    forall i, j :: 0 <= i < j < |q| ==> q[i] < q[j]
  }

  lemma InsertedAscending(q: seq<int>, x: int, k: nat)
    requires AscendingInts(q) && k <= |q|
    requires forall j :: 0 <= j < k ==> q[j] < x
    requires forall j :: k <= j < |q| ==> q[j] > x
    ensures AscendingInts(q[..k] + [x] + q[k..])
  {
    var r := q[..k] + [x] + q[k..];
    assert forall i :: 0 <= i < |r| ==> r[i] == if i < k then q[i] else if i == k then x else q[i - 1];
  }

  /** `sorted(s)` */
  method SortedInts(s: set<int>) returns (q: seq<int>)
    ensures AscendingInts(q) && Elems(q) == s
  {
    q := [];
    var order := Enumerate(s);
    for i := 0 to |order|
      invariant AscendingInts(q) && Elems(q) == Elems(order[..i])
    {
      var x := order[i];
      assert order[..i + 1] == order[..i] + [x];
      assert x !in Elems(order[..i]);
      var k := 0;
      while k < |q| && q[k] < x
        invariant 0 <= k <= |q| && forall j :: 0 <= j < k ==> q[j] < x
      {
        k := k + 1;
      }
      assert q == q[..k] + q[k..];
      forall j | k <= j < |q| ensures q[j] > x {
        assert q[j] in Elems(q);
      }
      InsertedAscending(q, x, k);
      ElemsInsert(q, x, k);
      q := q[..k] + [x] + q[k..];
    }
    assert order[..|order|] == order;
  }

  // ---------- the groups themselves ----------

  /** One group: the row's lists by ascending preference. */
  method JoinRow(c: Cache, files: seq<File>, t: Table, pri: int) returns (group: seq<File>)
    requires Tabulated(c, files, t) && pri in t
    ensures group != [] && SameLayer(c, group) && LayerOf(c, group) == pri
    ensures forall pref :: Select(c, group, pri, pref) == Select(c, files, pri, pref)
  {
    var prefs := SortedInts(t[pri].Keys);
    group := [];
    for i := 0 to |prefs|
      invariant forall f :: f in group ==> c.priority(f) == pri && c.preference(f) in prefs[..i]
      invariant forall j, k :: 0 <= j < k < |group| ==> c.preference(group[j]) <= c.preference(group[k])
      invariant forall j :: 0 <= j < i ==> Select(c, group, pri, prefs[j]) == Select(c, files, pri, prefs[j])
      invariant i > 0 ==> group != []
    {
      assert prefs[i] in Elems(prefs);
      ghost var was := group;
      var more := t[pri][prefs[i]];
      group := group + more;
      JoinStep(c, files, was, more, prefs, i, pri);
    }
    assert prefs[..|prefs|] == prefs;
    forall pref ensures Select(c, group, pri, pref) == Select(c, files, pri, pref) {
      if pref in t[pri] {
        assert pref in Elems(prefs);
        var j :| 0 <= j < |prefs| && prefs[j] == pref;
      } else {
        NotTabulated(c, files, t, pri, pref);
        SelectMembers(c, group, pri, pref);
        assert forall q :: q in prefs <==> q in Elems(prefs);
      }
    }
    assert t[pri].Keys != {};
  }

  lemma JoinStep(c: Cache, files: seq<File>, group: seq<File>, more: seq<File>, prefs: seq<int>, i: nat, pri: int)
    requires AscendingInts(prefs) && i < |prefs| && more == Select(c, files, pri, prefs[i]) && more != []
    requires forall f :: f in group ==> c.priority(f) == pri && c.preference(f) in prefs[..i]
    requires forall j, k :: 0 <= j < k < |group| ==> c.preference(group[j]) <= c.preference(group[k])
    requires forall j :: 0 <= j < i ==> Select(c, group, pri, prefs[j]) == Select(c, files, pri, prefs[j])
    ensures forall f :: f in group + more ==> c.priority(f) == pri && c.preference(f) in prefs[..i + 1]
    ensures forall j, k :: 0 <= j < k < |group + more| ==>
            c.preference((group + more)[j]) <= c.preference((group + more)[k])
    ensures forall j :: 0 <= j < i + 1 ==> Select(c, group + more, pri, prefs[j]) == Select(c, files, pri, prefs[j])
  {
    hide Select;
    SelectMembers(c, files, pri, prefs[i]);
    assert prefs[..i + 1] == prefs[..i] + [prefs[i]];
    forall f | f in group ensures c.preference(f) < prefs[i] {
      var j :| 0 <= j < i && prefs[..i][j] == c.preference(f);
    }
    JoinAscends(c, group, more, prefs[i]);
    forall j | 0 <= j < i + 1 ensures Select(c, group + more, pri, prefs[j]) == Select(c, files, pri, prefs[j]) {
      SelectPlus(c, group, more, pri, prefs[j]);
      SelectMembers(c, more, pri, prefs[j]);
      SelectMembers(c, group, pri, prefs[j]);
    }
  }

  lemma JoinAscends(c: Cache, group: seq<File>, more: seq<File>, pref: int)
    requires forall f :: f in group ==> c.preference(f) < pref
    requires forall f :: f in more ==> c.preference(f) == pref
    requires forall j, k :: 0 <= j < k < |group| ==> c.preference(group[j]) <= c.preference(group[k])
    ensures forall j, k :: 0 <= j < k < |group + more| ==>
            c.preference((group + more)[j]) <= c.preference((group + more)[k])
  {
    var all := group + more;
    forall j, k | 0 <= j < k < |all| ensures c.preference(all[j]) <= c.preference(all[k]) {
      assert if j < |group| then all[j] in group else all[j] in more;
      assert if k < |group| then all[k] in group else all[k] in more;
    }
  }

  /** Files by layer, highest first, and by preference, lowest first. */
  method SortPriorities(c: Cache, files: seq<File>) returns (groups: seq<seq<File>>)
    ensures Ordered(c, groups) && Regrouped(c, files, Flatten(groups))
    ensures files != [] ==> groups != []
  {
    var t := Tabulate(c, files);
    var pris := SortedInts(t.Keys);
    groups := [];
    for i := 0 to |pris|
      invariant Ordered(c, groups) && |groups| == i
      invariant forall g :: 0 <= g < |groups| ==> LayerOf(c, groups[g]) in pris[..i]
      invariant forall f :: f in Flatten(groups) ==> c.priority(f) in pris[..i]
      invariant forall j, pref :: 0 <= j < i ==>
                Select(c, Flatten(groups), pris[j], pref) == Select(c, files, pris[j], pref)
    {
      assert pris[i] in Elems(pris);
      var group := JoinRow(c, files, t, pris[i]);
      GroupStep(c, files, groups, group, pris, i);
      groups := [group] + groups;
    }
    assert pris[..|pris|] == pris;
    forall pri, pref ensures Select(c, Flatten(groups), pri, pref) == Select(c, files, pri, pref) {
      assert pri in pris <==> pri in Elems(pris);
      if pri !in t {
        NotTabulated(c, files, t, pri, pref);
        SelectMembers(c, Flatten(groups), pri, pref);
      }
    }
    if files != [] {
      assert files[0] in files;
      assert c.priority(files[0]) in Elems(pris);
    }
  }

  lemma GroupStep(c: Cache, files: seq<File>, groups: seq<seq<File>>, group: seq<File>, pris: seq<int>, i: nat)
    requires AscendingInts(pris) && i < |pris| && Ordered(c, groups)
    requires group != [] && SameLayer(c, group) && LayerOf(c, group) == pris[i]
    requires forall pref :: Select(c, group, pris[i], pref) == Select(c, files, pris[i], pref)
    requires forall g :: 0 <= g < |groups| ==> LayerOf(c, groups[g]) in pris[..i]
    requires forall f :: f in Flatten(groups) ==> c.priority(f) in pris[..i]
    requires forall j, pref :: 0 <= j < i ==>
             Select(c, Flatten(groups), pris[j], pref) == Select(c, files, pris[j], pref)
    ensures Ordered(c, [group] + groups)
    ensures forall g :: 0 <= g < |[group] + groups| ==> LayerOf(c, ([group] + groups)[g]) in pris[..i + 1]
    ensures forall f :: f in Flatten([group] + groups) ==> c.priority(f) in pris[..i + 1]
    ensures forall j, pref :: 0 <= j < i + 1 ==>
            Select(c, Flatten([group] + groups), pris[j], pref) == Select(c, files, pris[j], pref)
  {
    var all := [group] + groups;
    assert all[1..] == groups;
    assert Flatten(all) == group + Flatten(groups);
    assert pris[..i + 1] == pris[..i] + [pris[i]];
    forall g, h | 0 <= g < h < |all| ensures LayerOf(c, all[g]) > LayerOf(c, all[h]) {
      if g == 0 {
        assert all[h] == groups[h - 1];
      } else {
        assert all[g] == groups[g - 1] && all[h] == groups[h - 1];
      }
    }
    forall f | f in group ensures c.priority(f) == pris[i] {
    }
    forall f | f in Flatten(all) ensures c.priority(f) in pris[..i + 1] {
      assert f in group || f in Flatten(groups);
    }
    forall j, pref | 0 <= j < i + 1 ensures Select(c, Flatten(all), pris[j], pref) == Select(c, files, pris[j], pref) {
      SelectPlus(c, group, Flatten(groups), pris[j], pref);
      SelectMembers(c, group, pris[j], pref);
      SelectMembers(c, Flatten(groups), pris[j], pref);
      if j == i {
        assert forall f :: f in Flatten(groups) ==> c.priority(f) != pris[i];
      }
    }
  }

  // ---------- one package: the preferred and the latest version ----------

  predicate SameBuild(version: Version, w: Wanted) {
    (w.r.None? || w.r.value == version.pr) && (w.e.None? || w.e.value == version.pe)
  }

  predicate Matches(version: Version, w: Wanted) {
    && SameBuild(version, w)
    && (w.v == version.pv || (w.v != "" && w.v[|w.v| - 1] == '%' && StartsWith(version.pv, w.v[..|w.v| - 1])))
  }

  /**
   A setting that ends in % accepts exactly the versions that begin with the rest of it: all of them
   for a lone %, and the fewer the longer the rest is. Any other setting accepts its own version only.
   */
  lemma AcceptedVersions(version: Version, w: Wanted, p: string)
    ensures Matches(version, w.(v := p + "%")) <==> SameBuild(version, w) && p <= version.pv
    ensures Matches(version, w.(v := "%")) <==> SameBuild(version, w)
    ensures p == "" || p[|p| - 1] != '%' ==>
            (Matches(version, w.(v := p)) <==> SameBuild(version, w) && p == version.pv)
    ensures forall q: string :: p <= q && Matches(version, w.(v := q + "%")) ==> Matches(version, w.(v := p + "%"))
  {
    forall q: string ensures Matches(version, w.(v := q + "%")) <==> SameBuild(version, w) && q <= version.pv {
      var s := q + "%";
      assert s[..|s| - 1] == q && s[|s| - 1] == '%';
    }
    assert "" + "%" == "%";
  }

  method PreferredVersionMatch(version: Version, w: Wanted) returns (r: bool)
    ensures r <==> Matches(version, w)
  {
    if w.r.None? || version.pr == w.r.value {
      if w.e.None? || version.pe == w.e.value {
        if w.v == version.pv {
          return true;
        }
        if w.v != "" && w.v[|w.v| - 1] == '%' && StartsWith(version.pv, w.v[..|w.v| - 1]) {
          return true;
        }
      }
    }
    return false;
  }

  /** The setting that counts: a required version, even an empty one, before a preferred one. */
  function Setting(c: Cache, pn: Pn): Option<string> {
    if c.required(pn).Some? then c.required(pn) else c.preferred(pn)
  }

  predicate Fits(c: Cache, pn: Pn, f: File) {
    Setting(c, pn).GetOr("") != "" && Matches(c.version(f), c.parse(Setting(c, pn).value))
  }

  /** f comes first among the files of its kind when layers are taken from the top and preferences from the bottom. */
  ghost predicate FirstFit(c: Cache, pn: Pn, files: seq<File>, f: File) {
    && f in files && Fits(c, pn, f)
    && forall g :: g in files && Fits(c, pn, g) ==>
         c.priority(g) < c.priority(f) || (c.priority(g) == c.priority(f) && c.preference(g) >= c.preference(f))
  }

  /** A setting that is there and not empty, and some file has the version it asks for. */
  ghost predicate Offered(c: Cache, files: seq<File>, setting: Option<string>) {
    && setting.Some? && setting.value != ""
    && exists g :: g in files && Matches(c.version(g), c.parse(setting.value))
  }

  /** f has the version asked for, and of the files that have it is in the highest layer, with the least preference. */
  ghost predicate FirstOffered(c: Cache, files: seq<File>, setting: Option<string>, f: File) {
    && setting.Some? && setting.value != ""
    && f in files && Matches(c.version(f), c.parse(setting.value))
    && forall g :: g in files && Matches(c.version(g), c.parse(setting.value)) ==>
         c.priority(g) < c.priority(f) || (c.priority(g) == c.priority(f) && c.preference(g) >= c.preference(f))
  }

  /** Which of the two settings decides: the required one wherever there is one, even an empty one. */
  lemma SettingDecides(c: Cache, pn: Pn, files: seq<File>)
    ensures (exists g :: g in files && Fits(c, pn, g)) <==>
            if c.required(pn).Some? then Offered(c, files, c.required(pn)) else Offered(c, files, c.preferred(pn))
    ensures forall f :: FirstFit(c, pn, files, f) <==>
            if c.required(pn).Some? then FirstOffered(c, files, c.required(pn), f)
            else FirstOffered(c, files, c.preferred(pn), f)
  {
    hide Matches;
  }

  /** The first file with the version asked for, if one is. */
  method FindPreferredProvider(c: Cache, pn: Pn, files: seq<File>, groups: seq<seq<File>>)
      returns (f: Option<File>, required: bool)
    requires Ordered(c, groups) && Regrouped(c, files, Flatten(groups))
    ensures required <==> c.required(pn).Some?
    ensures f.Some? ==> FirstFit(c, pn, files, f.value)
    ensures f.None? ==> forall g :: g in files ==> !Fits(c, pn, g)
    ensures var setting := if required then c.required(pn) else c.preferred(pn);
            (f.Some? <==> Offered(c, files, setting)) && (f.Some? ==> FirstOffered(c, files, setting, f.value))
  {
    SettingDecides(c, pn, files);
    hide Offered, FirstOffered;
    required := c.required(pn).Some?;
    f := None;
    RegroupedMembers(c, files, Flatten(groups));
    var setting := Setting(c, pn);
    if setting.GetOr("") == "" {
      return;
    }
    var w := c.parse(setting.value);
    for i := 0 to |groups|
      invariant f.None?
      invariant forall g, k :: 0 <= g < i && 0 <= k < |groups[g]| ==> !Fits(c, pn, groups[g][k])
    {
      for j := 0 to |groups[i]|
        invariant f.None?
        invariant forall k :: 0 <= k < j ==> !Fits(c, pn, groups[i][k])
      {
        var found := PreferredVersionMatch(c.version(groups[i][j]), w);
        if found {
          FirstInGroups(c, pn, groups, i, j);
          f := Some(groups[i][j]);
          return;
        }
      }
    }
    forall g | g in files ensures !Fits(c, pn, g) {
      var i, k := FindIn(groups, g);
    }
  }

  lemma {:induction false} FindIn(groups: seq<seq<File>>, f: File) returns (i: nat, k: nat)
    requires f in Flatten(groups)
    ensures i < |groups| && k < |groups[i]| && groups[i][k] == f
  {
    if f in groups[0] {
      i := 0;
      k :| 0 <= k < |groups[0]| && groups[0][k] == f;
    } else {
      i, k := FindIn(groups[1..], f);
      i := i + 1;
    }
  }

  lemma {:induction false} InFlatten(groups: seq<seq<File>>, i: nat, k: nat)
    requires i < |groups| && k < |groups[i]|
    ensures groups[i][k] in Flatten(groups)
  {
    if i > 0 {
      InFlatten(groups[1..], i - 1, k);
    }
  }

  lemma FirstInGroups(c: Cache, pn: Pn, groups: seq<seq<File>>, i: nat, j: nat)
    requires Ordered(c, groups) && i < |groups| && j < |groups[i]| && Fits(c, pn, groups[i][j])
    requires forall g, k :: 0 <= g < i && 0 <= k < |groups[g]| ==> !Fits(c, pn, groups[g][k])
    requires forall k :: 0 <= k < j ==> !Fits(c, pn, groups[i][k])
    ensures FirstFit(c, pn, Flatten(groups), groups[i][j])
  {
    InFlatten(groups, i, j);
    var f := groups[i][j];
    forall g | g in Flatten(groups) && Fits(c, pn, g)
      ensures c.priority(g) < c.priority(f) || (c.priority(g) == c.priority(f) && c.preference(g) >= c.preference(f))
    {
      var h, k := FindIn(groups, g);
      assert SameLayer(c, groups[h]) && SameLayer(c, groups[i]);
      if h == i {
        assert k >= j;
      }
    }
  }

  /** No file of the group is preferred to f, nor as much preferred and newer. */
  ghost predicate Newest(c: Cache, group: seq<File>, f: File) {
    && f in group
    && forall g :: g in group ==>
         c.preference(g) < c.preference(f) ||
             (c.preference(g) == c.preference(f) && c.vercmp(c.version(g), c.version(f)) <= 0)
  }

  method FindLatestProvider(c: Cache, group: seq<File>) returns (f: Option<File>)
    requires TotalPreorder(c)
    ensures f.None? <==> group == []
    ensures f.Some? ==> Newest(c, group, f.value)
  {
    var latest: Option<Version>, latestP := None, 0;
    f := None;
    for i := 0 to |group|
      invariant latest.None? <==> f.None?
      invariant f.None? <==> i == 0
      invariant f.Some? ==>
                latest == Some(c.version(f.value)) && latestP == c.preference(f.value) &&
                Newest(c, group[..i], f.value)
    {
      var name := group[i];
      var version, dp := c.version(name), c.preference(name);
      assert group[..i + 1] == group[..i] + [name];
      if latest.None? || (latestP == dp && c.vercmp(latest.value, version) < 0) || dp > latestP {
        latest, f, latestP := Some(version), Some(name), dp;
      }
    }
    assert group[..|group|] == group;
  }

  // ---------- one package: the choice ----------

  /** The best of the top layer when no version is asked for, or none of those asked for is there. */
  ghost predicate TopNewest(c: Cache, files: seq<File>, f: File) {
    && f in files
    && (forall g :: g in files ==> c.priority(g) <= c.priority(f))
    && (forall g :: g in files && c.priority(g) == c.priority(f) ==>
          c.preference(g) < c.preference(f) ||
              (c.preference(g) == c.preference(f) && c.vercmp(c.version(g), c.version(f)) <= 0))
  }

  /**
   What is chosen for a package: the first fit if there is one, else the newest of the top layer
   unless a version is required.
   */
  ghost predicate Chosen(c: Cache, pn: Pn, files: seq<File>, f: Option<File>) {
    if exists g :: g in files && Fits(c, pn, g) then f.Some? && FirstFit(c, pn, files, f.value)
    else if c.required(pn).Some? then f.None?
    else f.Some? && TopNewest(c, files, f.value)
  }

  lemma TopGroup(c: Cache, files: seq<File>, groups: seq<seq<File>>, f: File)
    requires Ordered(c, groups) && Regrouped(c, files, Flatten(groups)) && groups != [] && Newest(c, groups[0], f)
    ensures TopNewest(c, files, f)
  {
    RegroupedMembers(c, files, Flatten(groups));
    assert SameLayer(c, groups[0]);
    var k :| 0 <= k < |groups[0]| && groups[0][k] == f;
    InFlatten(groups, 0, k);
    forall g | g in files
      ensures c.priority(g) <= c.priority(f)
      ensures c.priority(g) == c.priority(f) ==> g in groups[0]
    {
      var h, j := FindIn(groups, g);
      assert SameLayer(c, groups[h]);
    }
  }

  method FindBestProvider(c: Cache, pn: Pn, files: seq<File>)
      returns (latest: Option<File>, best: Option<File>, required: bool)
    requires TotalPreorder(c) && files != []
    ensures required <==> c.required(pn).Some?
    ensures latest.Some? && TopNewest(c, files, latest.value)
    ensures Chosen(c, pn, files, best)
    ensures required ==>
            (best.Some? <==> Offered(c, files, c.required(pn))) &&
            (best.Some? ==> FirstOffered(c, files, c.required(pn), best.value))
    ensures !required && Offered(c, files, c.preferred(pn)) ==>
            best.Some? && FirstOffered(c, files, c.preferred(pn), best.value)
    ensures !required && !Offered(c, files, c.preferred(pn)) ==> best.Some? && TopNewest(c, files, best.value)
  {
    hide Ordered, Regrouped, FirstOffered, Offered, TopNewest, FirstFit, Fits;
    SettingDecides(c, pn, files);
    var groups := SortPriorities(c, files);
    best, required := FindPreferredProvider(c, pn, files, groups);
    latest := FindLatestProvider(c, groups[0]);
    TopGroup(c, files, groups, latest.value);
    if !required && best.None? {
      best := latest;
    }
  }

  // ---------- several packages ----------

  function PnFiles(c: Cache, files: seq<File>, pn: Pn): seq<File> {
    if files == [] then []
    else
      var rest := PnFiles(c, files[..|files| - 1], pn);
      var f := files[|files| - 1];
      if c.pn(f) == pn then rest + [f] else rest
  }

  lemma {:induction false} PnFilesMembers(c: Cache, files: seq<File>, pn: Pn)
    ensures forall f :: f in PnFiles(c, files, pn) <==> f in files && c.pn(f) == pn
  {
    if files != [] {
      var t := files[..|files| - 1];
      PnFilesMembers(c, t, pn);
      assert files == t + [files[|files| - 1]];
    }
  }

  ghost function Pns(c: Cache, files: seq<File>): set<Pn> {
    set f | f in files :: c.pn(f)
  }

  /** Which file is chosen only depends on which files there are. */
  lemma ChosenSameMembers(c: Cache, pn: Pn, a: seq<File>, b: seq<File>, f: Option<File>)
    requires Chosen(c, pn, a, f) && forall g :: g in a <==> g in b
    ensures Chosen(c, pn, b, f)
  {
  }

  /** A required version of the package is set and none of its files has it. */
  ghost predicate Unavailable(c: Cache, files: seq<File>, pn: Pn) {
    c.required(pn).Some? && forall g :: g in PnFiles(c, files, pn) ==> !Fits(c, pn, g)
  }

  /** Some file of the package fits the version asked for. */
  ghost predicate Preferred(c: Cache, files: seq<File>, pn: Pn) {
    exists g :: g in PnFiles(c, files, pn) && Fits(c, pn, g)
  }

  /** By name, the first package of which a required version is unavailable. */
  ghost predicate FirstUnavailable(c: Cache, files: seq<File>, pn: Pn) {
    && pn in Pns(c, files) && Unavailable(c, files, pn)
    && forall p :: p in Pns(c, files) && Less(p, pn) ==> !Unavailable(c, files, p)
  }

  /** The packages before one, by name, of which a file fits. */
  ghost function PreferredBefore(c: Cache, files: seq<File>, pn: Pn): set<Pn> {
    set p | p in Pns(c, files) && Less(p, pn) && Preferred(c, files, p)
  }

  /** The list holds one chosen file for each of the packages, and nothing else. */
  ghost predicate OneEach(c: Cache, files: seq<File>, eligible: seq<File>, pns: set<Pn>) {
    && NoDup(eligible)
    && (forall f, g :: f in eligible && g in eligible && c.pn(f) == c.pn(g) ==> f == g)
    && (set f | f in eligible :: c.pn(f)) == pns
    && (forall f :: f in eligible ==> Chosen(c, c.pn(f), PnFiles(c, files, c.pn(f)), Some(f)))
  }

  /** `providers.sort()` */
  method SortFiles(files: seq<File>) returns (sorted: seq<File>)
    ensures multiset(sorted) == multiset(files)
    ensures forall i, j :: 0 <= i < j < |sorted| ==> !Less(sorted[j], sorted[i])
  {
    sorted := [];
    for i := 0 to |files|
      invariant multiset(sorted) == multiset(files[..i])
      invariant forall k, j :: 0 <= k < j < |sorted| ==> !Less(sorted[j], sorted[k])
    {
      var x, k := files[i], 0;
      while k < |sorted| && !Less(x, sorted[k])
        invariant 0 <= k <= |sorted| && forall j :: 0 <= j < k ==> !Less(x, sorted[j])
      {
        k := k + 1;
      }
      PlacedInOrder(sorted, x, k);
      PlacedMultiset(sorted, x, k);
      assert files[..i + 1] == files[..i] + [x];
      sorted := sorted[..k] + [x] + sorted[k..];
    }
    assert files[..|files|] == files;
  }

  lemma PlacedInOrder(s: seq<File>, x: File, k: nat)
    requires k <= |s| && (forall i, j :: 0 <= i < j < |s| ==> !Less(s[j], s[i]))
    requires forall j :: 0 <= j < k ==> !Less(x, s[j])
    requires k < |s| ==> Less(x, s[k])
    ensures forall i, j :: 0 <= i < j < |s| + 1 ==> !Less((s[..k] + [x] + s[k..])[j], (s[..k] + [x] + s[k..])[i])
  {
    hide Less;
    var r := s[..k] + [x] + s[k..];
    assert forall i :: 0 <= i < |r| ==> r[i] == if i < k then s[i] else if i == k then x else s[i - 1];
    forall j | k <= j < |s| ensures !Less(s[j], x) {
      NotLess(x, s[k], s[j]);
    }
  }

  lemma NotLess(x: File, a: File, b: File)
    requires Less(x, a) && (b == a || !Less(b, a))
    ensures !Less(b, x)
  {
    LessTotal(x, a);
    if Less(b, x) {
      LessTrans(b, x, a);
    }
  }

  lemma PlacedMultiset(s: seq<File>, x: File, k: nat)
    requires k <= |s|
    ensures multiset(s[..k] + [x] + s[k..]) == multiset(s) + multiset{x}
  {
    assert s == s[..k] + s[k..];
  }

  /** The providers of each package. */
  method Collate(c: Cache, files: seq<File>) returns (m: map<Pn, seq<File>>)
    ensures m.Keys == Pns(c, files)
    ensures forall pn :: pn in m ==> m[pn] == PnFiles(c, files, pn) && m[pn] != []
  {
    m := map[];
    for i := 0 to |files|
      invariant m.Keys == Pns(c, files[..i])
      invariant forall pn :: pn in m ==> m[pn] == PnFiles(c, files[..i], pn) && m[pn] != []
      invariant forall pn :: pn !in m ==> PnFiles(c, files[..i], pn) == []
    {
      var f := files[i];
      assert files[..i + 1] == files[..i] + [f];
      assert files[..i + 1][..i] == files[..i];
      var pn := c.pn(f);
      if pn !in m {
        m := m[pn := []];
      }
      m := m[pn := m[pn] + [f]];
    }
    assert files[..|files|] == files;
  }

  /** Take one entry out and put it first. */
  function ToFront(s: seq<File>, f: File): seq<File>
    requires f in s
  {
    [f] + RemoveFirst(s, f)
  }

  lemma ToFrontOneEach(c: Cache, files: seq<File>, s: seq<File>, f: File, pns: set<Pn>)
    requires f in s && OneEach(c, files, s, pns)
    ensures OneEach(c, files, ToFront(s, f), pns)
  {
    hide Chosen, PnFiles, Without, RemoveFirst;
    RemoveFirstIsWithout(s, f);
    WithoutElems(s, {f});
    var rest := RemoveFirst(s, f);
    NoDupPrepend(f, rest);
    assert forall g :: g in [f] + rest <==> g in s;
  }

  lemma {:induction false} ToFrontPermutes(s: seq<File>, f: File)
    requires f in s
    ensures multiset(ToFront(s, f)) == multiset(s)
  {
    assert s == [s[0]] + s[1..];
    if s[0] != f {
      ToFrontPermutes(s[1..], f);
    }
  }

  /** The list holds exactly the files recorded for the packages, each package's own. */
  ghost predicate Linked(c: Cache, eligible: seq<File>, versions: map<Pn, Option<File>>) {
    && NoDup(eligible)
    && (forall f :: f in eligible ==> c.pn(f) in versions && versions[c.pn(f)] == Some(f))
    && (forall pn :: pn in versions && versions[pn].Some? ==>
       versions[pn].value in eligible && c.pn(versions[pn].value) == pn)
  }

  /** What is recorded for a package is its choice, if it has been made. */
  ghost predicate Settled(c: Cache, files: seq<File>, versions: map<Pn, Option<File>>) {
    forall pn :: pn in versions ==>
      if versions[pn].Some? then Chosen(c, pn, PnFiles(c, files, pn), versions[pn])
      else c.required(pn).None? && forall g :: g in PnFiles(c, files, pn) ==> !Fits(c, pn, g)
  }

  ghost predicate Grouped(c: Cache, files: seq<File>, groups: map<Pn, seq<seq<File>>>) {
    forall pn :: pn in groups ==>
      groups[pn] != [] && Ordered(c, groups[pn]) && Regrouped(c, PnFiles(c, files, pn), Flatten(groups[pn]))
  }

  lemma LinkedPush(c: Cache, eligible: seq<File>, versions: map<Pn, Option<File>>, pn: Pn, f: Option<File>)
    requires Linked(c, eligible, versions) && (pn in versions ==> versions[pn].None?)
    requires f.Some? ==> c.pn(f.value) == pn
    ensures Linked(c, if f.Some? then eligible + [f.value] else eligible, versions[pn := f])
  {
    if f.Some? {
      NoDupPush(eligible, f.value);
    }
  }

  lemma SettledPush(c: Cache, files: seq<File>, versions: map<Pn, Option<File>>, pn: Pn, f: Option<File>)
    requires Settled(c, files, versions)
    requires if f.Some? then Chosen(c, pn, PnFiles(c, files, pn), f)
             else c.required(pn).None? && forall g :: g in PnFiles(c, files, pn) ==> !Fits(c, pn, g)
    ensures Settled(c, files, versions[pn := f])
  {
    hide Chosen, PnFiles;
  }

  lemma LinkedIsOneEach(c: Cache, files: seq<File>, eligible: seq<File>, versions: map<Pn, Option<File>>)
    requires Linked(c, eligible, versions) && Settled(c, files, versions)
    ensures OneEach(c, files, eligible, set pn | pn in versions && versions[pn].Some?)
  {
    hide Chosen, PnFiles;
  }

  /** First pass: each package's preferred or required version, up to a package that lacks a required one. */
  method AddPreferred(c: Cache, files: seq<File>, pkgPn: map<Pn, seq<File>>, names: seq<Pn>)
    returns (eligible: seq<File>, groups: map<Pn, seq<seq<File>>>, versions: map<Pn, Option<File>>, cut: bool,
        ghost at: nat)
    requires TotalPreorder(c) && NoDup(names) && Elems(names) == pkgPn.Keys
    requires forall pn :: pn in pkgPn ==> pkgPn[pn] == PnFiles(c, files, pn) && pkgPn[pn] != []
    ensures Linked(c, eligible, versions) && Settled(c, files, versions)
    ensures at <= |names| && versions.Keys == Elems(names[..at])
    ensures forall pn :: pn in versions ==> (versions[pn].Some? <==> Preferred(c, files, pn))
    ensures forall j :: 0 <= j < at ==> !Unavailable(c, files, names[j])
    ensures if cut then at < |names| && Unavailable(c, files, names[at]) else at == |names|
    ensures !cut ==> Grouped(c, files, groups) && groups.Keys == versions.Keys == pkgPn.Keys
  {
    hide Chosen, PnFiles, Settled, Linked, Grouped, Ordered, Regrouped, Unavailable, FirstFit, Fits, Preferred,
        TotalPreorder;
    eligible, groups, versions := [], map[], map[];
    NothingYet(c, files);
    for i := 0 to |names|
      invariant Linked(c, eligible, versions) && Settled(c, files, versions) && Grouped(c, files, groups)
      invariant versions.Keys == groups.Keys == Elems(names[..i])
      invariant forall j :: 0 <= j < i ==> !Unavailable(c, files, names[j])
      invariant forall pn :: pn in versions ==> (versions[pn].Some? <==> Preferred(c, files, pn))
    {
      var pn := names[i];
      assert pn in Elems(names);
      assert names[..i + 1] == names[..i] + [pn];
      ElemsPush(names[..i], pn);
      var sorted := SortPriorities(c, pkgPn[pn]);
      GroupedPush(c, files, groups, pn, sorted);
      groups := groups[pn := sorted];
      var f, required := FindPreferredProvider(c, pn, pkgPn[pn], sorted);
      UnavailableIs(c, files, pn, f);
      if required && f.None? {
        return eligible, groups, versions, true, i;
      }
      assert pn !in versions;
      SettledPush(c, files, versions, pn, f);
      LinkedPush(c, eligible, versions, pn, f);
      versions := versions[pn := f];
      if f.Some? {
        eligible := eligible + [f.value];
      }
    }
    assert names[..|names|] == names;
    cut, at := false, |names|;
  }

  lemma NothingYet(c: Cache, files: seq<File>)
    ensures Linked(c, [], map[]) && Settled(c, files, map[]) && Grouped(c, files, map[])
  {
  }

  lemma GroupedPush(c: Cache, files: seq<File>, groups: map<Pn, seq<seq<File>>>, pn: Pn, sorted: seq<seq<File>>)
    requires Grouped(c, files, groups)
    requires sorted != [] && Ordered(c, sorted) && Regrouped(c, PnFiles(c, files, pn), Flatten(sorted))
    ensures Grouped(c, files, groups[pn := sorted])
  {
    hide Ordered, Regrouped, PnFiles;
  }

  /** What the search for a preferred version says of the package. */
  lemma UnavailableIs(c: Cache, files: seq<File>, pn: Pn, f: Option<File>)
    requires f.Some? ==> FirstFit(c, pn, PnFiles(c, files, pn), f.value)
    requires f.None? ==> forall g :: g in PnFiles(c, files, pn) ==> !Fits(c, pn, g)
    ensures Unavailable(c, files, pn) <==> c.required(pn).Some? && f.None?
    ensures f.Some? <==> Preferred(c, files, pn)
    ensures f.Some? ==> Chosen(c, pn, PnFiles(c, files, pn), f) && c.pn(f.value) == pn
  {
    PnFilesMembers(c, files, pn);
  }

  /** Second pass: the newest of the top layer for the packages still without a choice. */
  method AddLatest(c: Cache, files: seq<File>, names: seq<Pn>, groups: map<Pn, seq<seq<File>>>,
                   eligible0: seq<File>, versions0: map<Pn, Option<File>>)
    returns (eligible: seq<File>, versions: map<Pn, Option<File>>)
    requires TotalPreorder(c) && Elems(names) == groups.Keys == versions0.Keys
    requires Linked(c, eligible0, versions0) && Settled(c, files, versions0) && Grouped(c, files, groups)
    ensures Linked(c, eligible, versions) && Settled(c, files, versions)
    ensures versions.Keys == versions0.Keys && forall pn :: pn in versions ==> versions[pn].Some?
  {
    hide Chosen, PnFiles, Linked, Ordered, Regrouped;
    eligible, versions := eligible0, versions0;
    for i := 0 to |names|
      invariant Linked(c, eligible, versions) && Settled(c, files, versions)
      invariant versions.Keys == versions0.Keys
      invariant forall j :: 0 <= j < i ==> names[j] in versions && versions[names[j]].Some?
    {
      var pn := names[i];
      assert pn in Elems(names);
      if versions[pn].Some? {
        continue;
      }
      var f := FindLatestProvider(c, groups[pn][0]);
      TopIsChosen(c, files, pn, groups[pn], f);
      SettledPush(c, files, versions, pn, f);
      LinkedPush(c, eligible, versions, pn, f);
      versions := versions[pn := f];
      eligible := eligible + [f.value];
    }
    forall pn | pn in versions ensures versions[pn].Some? {
      assert pn in Elems(names);
      var j :| 0 <= j < |names| && names[j] == pn;
    }
  }

  lemma TopIsChosen(c: Cache, files: seq<File>, pn: Pn, groups: seq<seq<File>>, f: Option<File>)
    requires groups != [] && Ordered(c, groups) && Regrouped(c, PnFiles(c, files, pn), Flatten(groups))
    requires f.None? <==> groups[0] == []
    requires f.Some? ==> Newest(c, groups[0], f.value)
    requires c.required(pn).None? && forall g :: g in PnFiles(c, files, pn) ==> !Fits(c, pn, g)
    ensures f.Some? && Chosen(c, pn, PnFiles(c, files, pn), f) && c.pn(f.value) == pn
  {
    TopGroup(c, PnFiles(c, files, pn), groups, f.value);
    PnFilesMembers(c, files, pn);
  }

  lemma OneEachSameMembers(c: Cache, a: seq<File>, b: seq<File>, eligible: seq<File>, pns: set<Pn>)
    requires OneEach(c, a, eligible, pns) && multiset(a) == multiset(b)
    ensures OneEach(c, b, eligible, pns)
  {
    hide Chosen, PnFiles;
    SameMembers(a, b);
    forall f | f in eligible ensures Chosen(c, c.pn(f), PnFiles(c, b, c.pn(f)), Some(f)) {
      PnFilesMembers(c, a, c.pn(f));
      PnFilesMembers(c, b, c.pn(f));
      ChosenSameMembers(c, c.pn(f), PnFiles(c, a, c.pn(f)), PnFiles(c, b, c.pn(f)), Some(f));
    }
  }

  lemma SameMembers(a: seq<File>, b: seq<File>)
    requires multiset(a) == multiset(b)
    ensures forall f :: f in a <==> f in b
  {
    forall f ensures f in a <==> f in b {
      assert f in multiset(a) <==> f in multiset(b);
    }
  }

  /**
   The candidates for one target, at most one for each package. At the first package, by
   name, that requires a version that is not there, the search ends, and what was preferred up
   to there is returned.
   */
  method FilterInternal(c: Cache, providers: seq<File>, item: Pn) returns (eligible: seq<File>)
    requires TotalPreorder(c)
    ensures forall pn :: FirstUnavailable(c, providers, pn) ==>
            OneEach(c, providers, eligible, PreferredBefore(c, providers, pn))
    ensures AllAvailable(c, providers) ==> OneEach(c, providers, eligible, Pns(c, providers))
    ensures AllAvailable(c, providers) && item in Pns(c, providers) ==> eligible != [] && c.pn(eligible[0]) == item
  {
    hide Chosen, PnFiles, Settled, Linked, Grouped, Unavailable, OneEach, TotalPreorder, Less, Ascending, NoDup,
        Preferred, AllAvailable, FirstUnavailable, PreferredBefore;
    var files := SortFiles(providers);
    SamePns(c, files, providers);
    var pkgPn := Collate(c, files);
    var names := SortedSet(pkgPn.Keys);
    AscendingNoDup(names);
    var eligible0, groups, versions, missing, at := AddPreferred(c, files, pkgPn, names);
    eligible := eligible0;
    Availability(c, files, providers, names, missing, at);
    if missing {
      LinkedIsOneEach(c, files, eligible, versions);
      UpToCut(c, files, providers, names, at, versions);
      OneEachSameMembers(c, files, providers, eligible, PreferredBefore(c, providers, names[at]));
      return;
    }
    assert names[..|names|] == names;
    eligible := Complete(c, files, item, names, groups, eligible, versions);
    OneEachSameMembers(c, files, providers, eligible, Pns(c, files));
  }

  /** The passes after the first one. */
  method Complete(c: Cache, files: seq<File>, item: Pn, names: seq<Pn>, groups: map<Pn, seq<seq<File>>>,
                  eligible0: seq<File>, versions0: map<Pn, Option<File>>) returns (eligible: seq<File>)
    requires TotalPreorder(c) && Elems(names) == groups.Keys == versions0.Keys == Pns(c, files)
    requires Linked(c, eligible0, versions0) && Settled(c, files, versions0) && Grouped(c, files, groups)
    ensures OneEach(c, files, eligible, Pns(c, files))
    ensures item in Pns(c, files) ==> eligible != [] && c.pn(eligible[0]) == item
  {
    hide Chosen, PnFiles, Settled, Linked, Grouped, OneEach, TotalPreorder;
    var latest, versions := AddLatest(c, files, names, groups, eligible0, versions0);
    eligible := latest;
    LinkedIsOneEach(c, files, eligible, versions);
    assert (set pn | pn in versions && versions[pn].Some?) == Pns(c, files);
    if eligible == [] {
      NonePresent(c, files, Pns(c, files));
      return;
    }
    eligible := OwnFirst(c, files, item, eligible, versions);
  }

  ghost predicate AllAvailable(c: Cache, files: seq<File>) {
    forall pn :: pn in Pns(c, files) ==> !Unavailable(c, files, pn)
  }

  /** Where the first pass stops is the first unavailable package, and it stops only there. */
  lemma Availability(c: Cache, files: seq<File>, providers: seq<File>, names: seq<Pn>, cut: bool, at: nat)
    requires multiset(files) == multiset(providers)
    requires Ascending(names) && Elems(names) == Pns(c, files) && at <= |names|
    requires forall j :: 0 <= j < at ==> !Unavailable(c, files, names[j])
    requires if cut then at < |names| && Unavailable(c, files, names[at]) else at == |names|
    ensures AllAvailable(c, providers) <==> !cut
    ensures forall pn :: FirstUnavailable(c, providers, pn) <==> cut && pn == names[at]
  {
    hide Unavailable, Less, PnFiles;
    SamePns(c, files, providers);
    forall pn | pn in Pns(c, providers) ensures exists j :: 0 <= j < |names| && names[j] == pn {
      InElems(names, pn);
    }
    if cut {
      InElems(names, names[at]);
      assert forall j :: at < j < |names| ==> Less(names[at], names[j]);
      forall p | p in Pns(c, providers) && Less(p, names[at]) ensures !Unavailable(c, providers, p) {
        var j :| 0 <= j < |names| && names[j] == p;
        LessTotal(names[j], names[at]);
      }
      forall pn | FirstUnavailable(c, providers, pn) ensures pn == names[at] {
        var j :| 0 <= j < |names| && names[j] == pn;
      }
    }
  }

  lemma UpToCut(c: Cache, files: seq<File>, providers: seq<File>, names: seq<Pn>, at: nat, versions: map<Pn,
      Option<File>>)
    requires multiset(files) == multiset(providers)
    requires Ascending(names) && Elems(names) == Pns(c, files) && at < |names|
    requires versions.Keys == Elems(names[..at])
    requires forall pn :: pn in versions ==> (versions[pn].Some? <==> Preferred(c, files, pn))
    ensures (set pn | pn in versions && versions[pn].Some?) == PreferredBefore(c, providers, names[at])
  {
    hide Less, PnFiles, Preferred;
    SamePns(c, files, providers);
    forall pn ensures pn in versions <==> pn in Pns(c, providers) && Less(pn, names[at]) {
      InElems(names[..at], pn);
      InElems(names, pn);
      if pn in names {
        var j :| 0 <= j < |names| && names[j] == pn;
        LessTotal(pn, names[at]);
        assert j < at ==> names[..at][j] == pn && Less(names[j], names[at]);
        assert at < j ==> Less(names[at], names[j]);
      }
    }
  }

  lemma SamePns(c: Cache, a: seq<File>, b: seq<File>)
    requires multiset(a) == multiset(b)
    ensures Pns(c, a) == Pns(c, b)
    ensures forall pn :: Unavailable(c, a, pn) <==> Unavailable(c, b, pn)
    ensures forall pn :: Preferred(c, a, pn) <==> Preferred(c, b, pn)
  {
    hide PnFiles;
    SameMembers(a, b);
    forall pn ensures (Unavailable(c, a, pn) <==> Unavailable(c, b, pn)) &&
        (Preferred(c, a, pn) <==> Preferred(c, b, pn)) {
      PnFilesMembers(c, a, pn);
      PnFilesMembers(c, b, pn);
    }
  }

  lemma AscendingNoDup(q: seq<string>)
    requires Ascending(q)
    ensures NoDup(q)
  {
    forall i, j | 0 <= i < j < |q| ensures q[i] != q[j] {
      LessTotal(q[i], q[i]);
    }
  }

  lemma NonePresent(c: Cache, files: seq<File>, pns: set<Pn>)
    ensures OneEach(c, files, [], pns) ==> pns == {}
  {
  }

  /** Last pass: the package named like the target comes first. */
  method OwnFirst(c: Cache, files: seq<File>, item: Pn, eligible0: seq<File>, versions: map<Pn, Option<File>>)
      returns (eligible: seq<File>)
    requires Linked(c, eligible0, versions) && OneEach(c, files, eligible0, Pns(c, files))
    requires versions.Keys == Pns(c, files) && forall pn :: pn in versions ==> versions[pn].Some?
    ensures OneEach(c, files, eligible, Pns(c, files)) && multiset(eligible) == multiset(eligible0)
    ensures item in Pns(c, files) ==> eligible != [] && c.pn(eligible[0]) == item
  {
    hide OneEach;
    eligible := eligible0;
    for i := 0 to |files|
      invariant OneEach(c, files, eligible, Pns(c, files)) && multiset(eligible) == multiset(eligible0)
      invariant (exists j :: 0 <= j < i && c.pn(files[j]) == item) ==> eligible != [] && c.pn(eligible[0]) == item
    {
      var pn := c.pn(files[i]);
      if pn != item {
        continue;
      }
      assert pn in Pns(c, files);
      var f := versions[pn].value;
      SameMembers(eligible, eligible0);
      if f !in eligible {
        continue;
      }
      ToFrontOneEach(c, files, eligible, f, Pns(c, files));
      ToFrontPermutes(eligible, f);
      eligible := ToFront(eligible, f);
    }
  }

  /** The candidates for a build target; a preferred provider, if it is among them, comes first. */
  method FilterProviders(c: Cache, providers: seq<File>, item: Pn, prefer: Option<Pn>)
    returns (eligible: seq<File>, foundUnique: bool)
    requires TotalPreorder(c)
    ensures forall pn :: FirstUnavailable(c, providers, pn) ==>
            OneEach(c, providers, eligible, PreferredBefore(c, providers, pn))
    ensures AllAvailable(c, providers) ==> OneEach(c, providers, eligible, Pns(c, providers))
    ensures foundUnique <==> prefer.Some? && exists f :: f in eligible && c.pn(f) == prefer.value
    ensures foundUnique ==> c.pn(eligible[0]) == prefer.value
    ensures !foundUnique && AllAvailable(c, providers) && item in Pns(c, providers) ==> c.pn(eligible[0]) == item
  {
    hide OneEach, AllAvailable, FirstUnavailable, PreferredBefore;
    eligible := FilterInternal(c, providers, item);
    foundUnique := false;
    if prefer.None? {
      return;
    }
    for i := 0 to |eligible|
      invariant forall j :: 0 <= j < i ==> c.pn(eligible[j]) != prefer.value
    {
      if c.pn(eligible[i]) == prefer.value {
        forall pns | OneEach(c, providers, eligible, pns)
            ensures OneEach(c, providers, ToFront(eligible, eligible[i]), pns) {
          ToFrontOneEach(c, providers, eligible, eligible[i], pns);
        }
        eligible := ToFront(eligible, eligible[i]);
        foundUnique := true;
        assert eligible[0] in eligible;
        return;
      }
    }
  }
}
