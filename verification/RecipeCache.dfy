/** The cache of parsed recipes: an array of infos for each recipe, saved as one stream of infos for each class. */
module RecipeCache {
  import opened Collections

  type Key = string

  /** One info object: the name of its class, and what it holds. */
  datatype Info = Info(kind: string, body: string)

  /** A class of infos, and the file they are kept in. */
  datatype CacheClass = CacheClass(name: string, file: string)

  /** A cache file: whether both version stamps are those of this program, and the pairs after them. */
  datatype Stream = Stream(current: bool, entries: seq<(Key, Info)>)

  type Infos = map<Key, seq<Info>>

  function NamesOf(classes: seq<CacheClass>): (n: seq<string>)
    ensures |n| == |classes| && forall i :: 0 <= i < |n| ==> n[i] == classes[i].name
  {
    seq(|classes|, i requires 0 <= i < |classes| => classes[i].name)
  }

  ghost predicate Distinct(classes: seq<CacheClass>) {
    NoDup(NamesOf(classes)) && forall i, j :: 0 <= i < j < |classes| ==> classes[i].file != classes[j].file
  }

  function ArrayOf(d: Infos, k: Key): seq<Info> {
    if k in d then d[k] else []
  }

  /** The infos of one class, in their order. */
  function OfKind(infos: seq<Info>, name: string): seq<Info> {
    if infos == [] then []
    else OfKind(infos[..|infos| - 1], name) + if infos[|infos| - 1].kind == name then [infos[|infos| - 1]] else []
  }

  /** What a stream says about one recipe. */
  function Picked(entries: seq<(Key, Info)>, k: Key): seq<Info> {
    if entries == [] then []
    else Picked(entries[..|entries| - 1], k) + if entries[|entries| - 1].0 == k then [entries[|entries| - 1].1] else []
  }

  lemma NonePicked()
    ensures forall k :: Picked([], k) == []
  {
  }

  lemma NoneOfKind(name: string)
    ensures OfKind([], name) == []
  {
  }

  lemma OfKindPush(infos: seq<Info>, x: Info, name: string)
    ensures OfKind(infos + [x], name) == OfKind(infos, name) + if x.kind == name then [x] else []
  {
    assert (infos + [x])[..|infos|] == infos;
  }

  lemma PickedPush(entries: seq<(Key, Info)>, k: Key, x: Info, j: Key)
    ensures Picked(entries + [(k, x)], j) == Picked(entries, j) + if k == j then [x] else []
  {
    assert (entries + [(k, x)])[..|entries|] == entries;
  }

  /** All the streams together, class after class. */
  ghost function Gathered(classes: seq<CacheClass>, files: map<string, Stream>, k: Key): seq<Info>
    requires forall c :: c in classes ==> c.file in files
  {
    if classes == [] then []
    else Gathered(classes[..|classes| - 1], files, k) + Picked(files[classes[|classes| - 1].file].entries, k)
  }

  /** The array as it comes back: the infos of the first class, then those of the second, and so on. */
  ghost function Regrouped(infos: seq<Info>, names: seq<string>): seq<Info> {
    if names == [] then []
    else Regrouped(infos, names[..|names| - 1]) + OfKind(infos, names[|names| - 1])
  }

  /** A cache holds exactly the recipes that some stream mentions, each with all that is said of it. */
  ghost predicate Holds(d: Infos, classes: seq<CacheClass>, files: map<string, Stream>)
    requires forall c :: c in classes ==> c.file in files
  {
    forall k :: (k in d <==> Gathered(classes, files, k) != []) && ArrayOf(d, k) == Gathered(classes, files, k)
  }

  class Disk {
    var files: map<string, Stream>

    constructor ()
      ensures files == map[]
    {
      files := map[];
    }
  }

  /** Whether a stream is what is written of these infos for one class. */
  ghost predicate Saved(infos: Infos, s: Stream, name: string) {
    s.current && forall k :: Picked(s.entries, k) == OfKind(ArrayOf(infos, k), name)
  }

  class Cache {
    const disk: Disk
    const classes: seq<CacheClass>
    const hasCache: bool                  // whether there is a directory for it
    var cacheClean: bool                  // whether nothing has been parsed since it was loaded
    var dependsCache: Option<Infos>       // None once it has been deleted

    constructor (disk: Disk, classes: seq<CacheClass>, hasCache: bool)
      ensures this.disk == disk && this.classes == classes && this.hasCache == hasCache && cacheClean &&
              dependsCache == Some(map[])
    {
      this.disk, this.classes, this.hasCache, cacheClean, dependsCache := disk, classes, hasCache, true, Some(map[]);
    }

    /**
     One file for each class; each holds, for every recipe, the infos of that class in their order.
     Then the cache is deleted. Without a directory, or with nothing new, nothing is done.
     */
    method Sync()
      requires Distinct(classes) && dependsCache.Some?
      modifies disk, this`dependsCache
      ensures !hasCache || cacheClean ==> disk.files == old(disk.files) && dependsCache == old(dependsCache)
      ensures hasCache && !cacheClean ==>
              dependsCache == None && forall c :: c in classes ==>
              c.file in disk.files && Saved(old(dependsCache).value, disk.files[c.file], c.name)
      ensures forall f :: f in old(disk.files) && (forall c :: c in classes ==> c.file != f) ==>
              f in disk.files && disk.files[f] == old(disk.files)[f]
    {
      if !hasCache || cacheClean {
        return;
      }
      for i := 0 to |classes|
        invariant dependsCache == old(dependsCache)
        invariant forall j :: 0 <= j < i ==>
                  classes[j].file in disk.files &&
                  Saved(dependsCache.value, disk.files[classes[j].file], classes[j].name)
        invariant forall f :: f in old(disk.files) && (forall c :: c in classes ==> c.file != f) ==>
                  f in disk.files && disk.files[f] == old(disk.files)[f]
      {
        var entries := Write(dependsCache.value, classes[i].name);
        disk.files := disk.files[classes[i].file := Stream(true, entries)];
      }
      dependsCache := None;
    }

    static method Write(infos: Infos, name: string) returns (entries: seq<(Key, Info)>)
      ensures Saved(infos, Stream(true, entries), name)
    {
      hide Picked, OfKind;
      entries := [];
      NonePicked();
      var keys := Enumerate(infos.Keys);
      for i := 0 to |keys|
        invariant forall k :: Picked(entries, k) == if k in keys[..i] then OfKind(ArrayOf(infos, k), name) else []
      {
        InElems(keys, keys[i]);
        ghost var before := entries;
        entries := WriteArray(entries, keys[i], infos[keys[i]], name);
        assert keys[..i + 1] == keys[..i] + [keys[i]];
        assert keys[i] !in keys[..i];
        assert Picked(before, keys[i]) == [];
      }
      assert keys[..|keys|] == keys;
      forall k ensures k in keys <==> k in infos {
        InElems(keys, k);
      }
      NoneOfKind(name);
    }

    static method WriteArray(before: seq<(Key, Info)>, key: Key, infos: seq<Info>, name: string)
        returns (entries: seq<(Key, Info)>)
      ensures forall k :: Picked(entries, k) == Picked(before, k) + if k == key then OfKind(infos, name) else []
    {
      entries := before;
      for j := 0 to |infos|
        invariant forall k ::
                  Picked(entries, k) ==
                  Picked(before, k) + if k == key then OfKind(infos[..j], name) else []
      {
        OfKindPush(infos[..j], infos[j], name);
        assert infos[..j + 1] == infos[..j] + [infos[j]];
        if infos[j].kind == name {
          forall k ensures Picked(entries + [(key, infos[j])], k) ==
              Picked(entries, k) + if k == key then [infos[j]] else [] {
            PickedPush(entries, key, infos[j], k);
          }
          entries := entries + [(key, infos[j])];
        }
      }
      assert infos[..|infos|] == infos;
    }

    /**
     Into an empty cache, all that the files say. A file of another version ends the loading,
     and reports nothing loaded, though what came before it stays in the cache.
     */
    method LoadCachefile() returns (loaded: nat)
      requires dependsCache == Some(map[]) && forall c :: c in classes ==> c.file in disk.files
      modifies this`dependsCache
      ensures dependsCache.Some?
      ensures (forall c :: c in classes ==> disk.files[c.file].current) ==>
                loaded == |dependsCache.value| && Holds(dependsCache.value, classes, disk.files)
      ensures (exists c :: c in classes && !disk.files[c.file].current) ==>
                loaded == 0 && exists n ::
                    0 <= n < |classes| && !disk.files[classes[n].file].current &&
                    Holds(dependsCache.value, classes[..n], disk.files)
    {
      for i := 0 to |classes|
        invariant forall j :: 0 <= j < i ==> disk.files[classes[j].file].current
        invariant dependsCache.Some? && Holds(dependsCache.value, classes[..i], disk.files)
      {
        var s := disk.files[classes[i].file];
        if !s.current {
          return 0;
        }
        ghost var before := dependsCache.value;
        var d := Append(dependsCache.value, s.entries);
        dependsCache := Some(d);
        assert classes[..i + 1][..i] == classes[..i];
        forall k ensures (k in d <==> Gathered(classes[..i + 1], disk.files, k) != []) &&
            ArrayOf(d, k) == Gathered(classes[..i + 1], disk.files, k) {
          assert AppendedAt(d, before, s.entries, k);
        }
      }
      assert classes[..|classes|] == classes;
      loaded := |dependsCache.value|;
    }

    static method Append(before: Infos, entries: seq<(Key, Info)>) returns (d: Infos)
      requires forall k :: k in before ==> before[k] != []
      ensures Appended(d, before, entries)
    {
      d := before;
      for i := 0 to |entries|
        invariant Appended(d, before, entries[..i])
      {
        AppendedStep(d, before, entries[..i], entries[i].0, entries[i].1);
        assert entries[..i + 1] == entries[..i] + [(entries[i].0, entries[i].1)];
        d := d[entries[i].0 := ArrayOf(d, entries[i].0) + [entries[i].1]];
      }
      assert entries[..|entries|] == entries;
    }
  }

  /** Every array has grown by what the stream says of its recipe. */
  ghost predicate Appended(d: Infos, before: Infos, entries: seq<(Key, Info)>) {
    forall k :: AppendedAt(d, before, entries, k)
  }

  ghost predicate AppendedAt(d: Infos, before: Infos, entries: seq<(Key, Info)>, k: Key) {
    (k in d <==> ArrayOf(before, k) + Picked(entries, k) != []) &&
        ArrayOf(d, k) == ArrayOf(before, k) + Picked(entries, k)
  }

  lemma AppendedStep(d: Infos, before: Infos, entries: seq<(Key, Info)>, key: Key, value: Info)
    requires Appended(d, before, entries)
    ensures Appended(d[key := ArrayOf(d, key) + [value]], before, entries + [(key, value)])
  {
    hide Picked;
    var e, longer := d[key := ArrayOf(d, key) + [value]], entries + [(key, value)];
    forall k ensures AppendedAt(e, before, longer, k) {
      assert AppendedAt(d, before, entries, k);
      PickedPush(entries, key, value, k);
    }
  }

  // ---------- what comes back ----------

  lemma {:induction false} GatheredSaved(infos: Infos, classes: seq<CacheClass>, files: map<string, Stream>, n: nat,
      k: Key)
    requires n <= |classes| && forall x :: x in classes ==> x.file in files && Saved(infos, files[x.file], x.name)
    ensures Gathered(classes[..n], files, k) == Regrouped(ArrayOf(infos, k), NamesOf(classes)[..n])
  {
    if n > 0 {
      GatheredSaved(infos, classes, files, n - 1, k);
      assert classes[..n][..n - 1] == classes[..n - 1] && NamesOf(classes)[..n][..n - 1] == NamesOf(classes)[..n - 1];
      assert classes[n - 1] in classes;
    }
  }

  /** Where a class comes in the list of classes. */
  function Place(names: seq<string>, x: string): nat {
    if names == [] || names[0] == x then 0 else 1 + Place(names[1..], x)
  }

  /** The infos follow the order of the classes, and there is none of another class. */
  ghost predicate InOrder(infos: seq<Info>, names: seq<string>) {
    && (forall x :: x in infos ==> x.kind in names)
    && forall i, j :: 0 <= i < j < |infos| ==> Place(names, infos[i].kind) <= Place(names, infos[j].kind)
  }

  lemma {:induction false} PlacePush(names: seq<string>, c: string, x: string)
    requires c !in names
    ensures x in names ==> Place(names + [c], x) == Place(names, x) < |names|
    ensures Place(names + [c], c) == |names|
  {
    if names == [] {
      assert ([c])[0] == c;
    } else {
      assert (names + [c])[1..] == names[1..] + [c];
      PlacePush(names[1..], c, x);
    }
  }

  lemma {:induction false} OfKindFacts(infos: seq<Info>, name: string)
    ensures forall x :: x in OfKind(infos, name) ==> x.kind == name && x in infos
    ensures (forall x :: x in infos ==> x.kind == name) ==> OfKind(infos, name) == infos
    ensures (forall x :: x in infos ==> x.kind != name) ==> OfKind(infos, name) == []
  {
    if infos != [] {
      var front := infos[..|infos| - 1];
      assert infos == front + [infos[|infos| - 1]];
      OfKindFacts(front, name);
    }
  }

  lemma {:induction false} OfKindPlus(a: seq<Info>, b: seq<Info>, name: string)
    ensures OfKind(a + b, name) == OfKind(a, name) + OfKind(b, name)
  {
    if b == [] {
      assert a + b == a;
    } else {
      var front, last := b[..|b| - 1], b[|b| - 1];
      assert a + b == (a + front) + [last] && b == front + [last];
      OfKindPlus(a, front, name);
      OfKindPush(a + front, last, name);
      OfKindPush(front, last, name);
    }
  }

  /** However the array was ordered, it comes back in order. */
  lemma {:induction false} RegroupedInOrder(infos: seq<Info>, names: seq<string>)
    requires NoDup(names)
    ensures InOrder(Regrouped(infos, names), names)
  {
    if names != [] {
      var n := |names| - 1;
      var front, c := names[..n], names[n];
      assert names == front + [c];
      RegroupedInOrder(infos, front);
      OfKindFacts(infos, c);
      var r, tail := Regrouped(infos, front), OfKind(infos, c);
      forall x: Info | x in r + tail
          ensures x.kind in names && Place(names, x.kind) == (if x in r then Place(front, x.kind) else n) {
        PlacePush(front, c, x.kind);
      }
      forall i, j | 0 <= i < j < |r + tail|
          ensures Place(names, (r + tail)[i].kind) <= Place(names, (r + tail)[j].kind) {
        PlacePush(front, c, (r + tail)[i].kind);
        PlacePush(front, c, (r + tail)[j].kind);
        assert (r + tail)[i] in r + tail && (r + tail)[j] in r + tail;
      }
    }
  }

  lemma InOrderFront(infos: seq<Info>, names: seq<string>)
    requires infos != [] && InOrder(infos, names)
    ensures InOrder(infos[..|infos| - 1], names)
  {
    assert forall x :: x in infos[..|infos| - 1] ==> x in infos;
  }

  lemma LastIsOther(infos: seq<Info>, front: seq<string>, c: string)
    requires c !in front && InOrder(infos, front + [c]) && (infos != [] ==> infos[|infos| - 1].kind != c)
    ensures InOrder(infos, front)
  {
    var names := front + [c];
    forall i | 0 <= i < |infos| ensures infos[i].kind in front &&
        Place(front, infos[i].kind) == Place(names, infos[i].kind) {
      var last := infos[|infos| - 1];
      assert infos[i] in infos && last in infos;
      PlacePush(front, c, infos[i].kind);
      PlacePush(front, c, last.kind);
      assert Place(names, infos[i].kind) <= Place(names, last.kind);
    }
  }

  /** How many infos there are before those of one class at the end. */
  lemma {:induction false} SplitLast(infos: seq<Info>, front: seq<string>, c: string) returns (n: nat)
    requires c !in front && InOrder(infos, front + [c])
    ensures n <= |infos| && InOrder(infos[..n], front) && forall x :: x in infos[n..] ==> x.kind == c
  {
    hide InOrder, Place;
    n := |infos|;
    if infos != [] && infos[|infos| - 1].kind == c {
      var rest := infos[..|infos| - 1];
      InOrderFront(infos, front + [c]);
      n := SplitLast(rest, front, c);
      assert infos[..n] == rest[..n];
      assert infos[n..] == rest[n..] + [infos[|infos| - 1]];
    } else {
      LastIsOther(infos, front, c);
      assert infos[..n] == infos && infos[n..] == [];
    }
  }

  /** Infos of a class that is not asked for make no difference. */
  lemma {:induction false} RegroupedPlus(a: seq<Info>, b: seq<Info>, names: seq<string>)
    requires forall x :: x in b ==> x.kind !in names
    ensures Regrouped(a + b, names) == Regrouped(a, names)
  {
    if names != [] {
      var n := |names| - 1;
      assert names == names[..n] + [names[n]];
      RegroupedPlus(a, b, names[..n]);
      OfKindPlus(a, b, names[n]);
      OfKindFacts(b, names[n]);
    }
  }

  lemma NoDupFront(names: seq<string>)
    requires NoDup(names) && names != []
    ensures NoDup(names[..|names| - 1]) && names[|names| - 1] !in names[..|names| - 1]
  {
    var front := names[..|names| - 1];
    forall i, j | 0 <= i < j < |front| ensures front[i] != front[j] {
      assert names[i] != names[j];
    }
  }

  lemma OfKindSplit(a: seq<Info>, b: seq<Info>, c: string)
    requires (forall x :: x in a ==> x.kind != c) && forall x :: x in b ==> x.kind == c
    ensures OfKind(a + b, c) == b
  {
    OfKindPlus(a, b, c);
    OfKindFacts(a, c);
    OfKindFacts(b, c);
  }

  lemma {:induction false} InOrderComesBack(infos: seq<Info>, names: seq<string>)
    requires NoDup(names) && InOrder(infos, names)
    ensures Regrouped(infos, names) == infos
    decreases |names|
  {
    assert infos != [] ==> infos[0] in infos;
    if names != [] {
      var front, c := names[..|names| - 1], names[|names| - 1];
      assert names == front + [c];
      NoDupFront(names);
      var n := SplitLast(infos, front, c);
      var a, b := infos[..n], infos[n..];
      assert infos == a + b;
      assert InOrder(a, front);
      assert forall x :: x in infos[n..] ==> x.kind == c;
      assert forall x :: x in a ==> x.kind in front;
      hide InOrder, NoDup;
      InOrderComesBack(a, front);
      RegroupedPlus(a, b, front);
      OfKindSplit(a, b, c);
    }
  }

  /** Saving and loading give an array back exactly when it follows the order of the classes. */
  lemma ComesBack(infos: seq<Info>, names: seq<string>)
    requires NoDup(names)
    ensures Regrouped(infos, names) == infos <==> InOrder(infos, names)
  {
    RegroupedInOrder(infos, names);
    if InOrder(infos, names) {
      InOrderComesBack(infos, names);
    }
  }

  /**
   A cache that is saved and loaded again is the same exactly when it has no empty array and
   every array follows the order of the classes.
   */
  method SaveAndReload(c: Cache) returns (d: Cache)
    requires Distinct(c.classes) && c.dependsCache.Some? && c.hasCache && !c.cacheClean
    modifies c.disk, c`dependsCache
    ensures fresh(d) && d.disk == c.disk && d.classes == c.classes && d.dependsCache.Some?
    ensures d.dependsCache == old(c.dependsCache) <==>
              forall k :: k in old(c.dependsCache).value ==>
                  old(c.dependsCache).value[k] != [] && InOrder(old(c.dependsCache).value[k], NamesOf(c.classes))
  {
    ghost var was := c.dependsCache.value;
    c.Sync();
    d := new Cache(c.disk, c.classes, c.hasCache);
    var loaded := d.LoadCachefile();
    forall k ensures ArrayOf(d.dependsCache.value, k) == Regrouped(ArrayOf(was, k), NamesOf(c.classes)) {
      GatheredSaved(was, c.classes, c.disk.files, |c.classes|, k);
      assert c.classes[..|c.classes|] == c.classes && NamesOf(c.classes)[..|c.classes|] == NamesOf(c.classes);
    }
    SameInfos(was, d.dependsCache.value, NamesOf(c.classes));
  }

  /** An array that begins with an info of the second class comes back the other way round. */
  lemma TurnedRound(a: Info, b: Info)
    requires a.kind == "A" && b.kind == "B"
    ensures Regrouped([b, a], ["A", "B"]) == [a, b]
  {
    OfKindPush([], b, "A");
    OfKindPush([], b, "B");
    OfKindPush([b], a, "A");
    OfKindPush([b], a, "B");
    NoneOfKind("A");
    NoneOfKind("B");
    assert [] + [b] == [b] && [b] + [a] == [b, a];
    assert OfKind([b, a], "A") == [a] && OfKind([b, a], "B") == [b];
    assert ["A", "B"][..1] == ["A"] && ["A"][..0] == [];
    assert Regrouped([b, a], ["A"]) == [a];
  }

  lemma SameInfos(was: Infos, now: Infos, names: seq<string>)
    requires NoDup(names) && forall k :: k in now ==> now[k] != []
    requires forall k :: ArrayOf(now, k) == Regrouped(ArrayOf(was, k), names)
    ensures now == was <==> forall k :: k in was ==> was[k] != [] && InOrder(was[k], names)
  {
    forall k ensures ArrayOf(now, k) == ArrayOf(was, k) <==> InOrder(ArrayOf(was, k), names) {
      ComesBack(ArrayOf(was, k), names);
    }
    if now == was {
      forall k | k in was ensures was[k] != [] && InOrder(was[k], names) {
        assert ArrayOf(now, k) == ArrayOf(was, k);
      }
    } else if forall k :: k in was ==> was[k] != [] && InOrder(was[k], names) {
      forall k ensures (k in now <==> k in was) && (k in now ==> now[k] == was[k]) {
        assert ArrayOf(now, k) == ArrayOf(was, k);
      }
    }
  }
}
