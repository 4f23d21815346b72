/**
 How worker processes hand their new cache entries to the process that merges them: each
 writes a file of its own under a shared lock; the merger reads and removes the files under
 the exclusive one. Calls may be interleaved in any way, and a writer may die at any point;
 what it leaves may end a pass of the merger with an exception.
 */
module ExtrasHandoff {
  import opened Collections

  type Call = nat               // one call of save_extras

  const VERSION: nat := 1       // the class's cache version

  /** A file holds what a call pickled; a call that died while writing leaves a torn one. */
  datatype File<V> = Torn(writer: Call) | Whole(writer: Call, data: seq<map<string, V>>, version: nat)

  datatype Stage = Idle | Searching | Holding | Writing | Written | Unlocked | Finished | Dead

  /** at is the index being tried or held. */
  datatype Saver<V> = Saver(pid: nat, extras: seq<map<string, V>>, version: nat, stage: Stage, at: nat)

  datatype MergeStage = Away | Merging(todo: set<nat>) | Unlinking(now: nat, left: set<nat>)

  /** data is what the merging process has in memory, disk what the last completed pass has written. */
  datatype State<V> = State(
    files: map<nat, File<V>>, indexLocks: map<nat, Call>, shared: set<Call>, exclusive: bool,
    savers: map<Call, Saver<V>>, merger: MergeStage, data: seq<map<string, V>>, disk: seq<map<string, V>>)

  // ---------- merging ----------

  /** Entries already there win. */
  function Merged<V>(source: seq<map<string, V>>, dest: seq<map<string, V>>): seq<map<string, V>>
    requires |source| == |dest|
  {
    seq(|dest|, j requires 0 <= j < |dest| => source[j] + dest[j])
  }

  method MergeData<V>(source: seq<map<string, V>>, dest0: seq<map<string, V>>) returns (dest: seq<map<string, V>>)
    requires |source| == |dest0|
    ensures dest == Merged(source, dest0)
  {
    dest := dest0;
    for j := 0 to |dest0|
      invariant |dest| == |dest0|
      invariant forall i :: 0 <= i < j ==> dest[i] == source[i] + dest0[i]
      invariant forall i :: j <= i < |dest0| ==> dest[i] == dest0[i]
    {
      var order := Enumerate(source[j].Keys);
      assert forall h :: h in source[j] <==> h in Elems(order);
      for n := 0 to |order|
        invariant |dest| == |dest0|
        invariant dest == dest[j := dest[j]]
        invariant forall i :: 0 <= i < |dest0| && i != j ==> dest[i] == if i < j then source[i] + dest0[i] else dest0[i]
        invariant dest[j].Keys == dest0[j].Keys + Elems(order[..n])
        invariant forall h :: h in dest[j] ==> dest[j][h] == if h in dest0[j] then dest0[j][h] else source[j][h]
      {
        var h := order[n];
        assert h in Elems(order);
        assert order[..n + 1] == order[..n] + [h];
        if h !in dest[j] {
          dest := dest[j := dest[j][h := source[j][h]]];
        }
      }
      assert order[..|order|] == order;
    }
  }

  /** All keys of each of the dictionaries are there. */
  ghost predicate Covers<V>(data: seq<map<string, V>>, extras: seq<map<string, V>>) {
    |data| == |extras| && forall j :: 0 <= j < |data| ==> extras[j].Keys <= data[j].Keys
  }

  /** Nothing that was there has changed or gone. */
  ghost predicate Extends<V>(data: seq<map<string, V>>, data': seq<map<string, V>>) {
    |data'| == |data| && forall j, h :: 0 <= j < |data| && h in data[j] ==> h in data'[j] && data'[j][h] == data[j][h]
  }

  // ---------- steps ----------

  ghost predicate Init<V>(s: State<V>) {
    && s.indexLocks == map[] && s.shared == {} && !s.exclusive && s.merger == Away && s.disk == s.data
    && (forall c :: c in s.savers ==> s.savers[c].stage == Idle && |s.savers[c].extras| == |s.data|)
    && (forall i :: i in s.files ==>
       s.files[i].writer !in s.savers &&
       (s.files[i].Whole? && s.files[i].version == VERSION ==> |s.files[i].data| == |s.data|))
  }

  ghost predicate SaverStep<V>(s: State<V>, s': State<V>, c: Call) {
    c in s.savers &&
    var v := s.savers[c];
    match v.stage
    case Idle =>            // lockfile(shared=True) waits for the merger
      !s.exclusive && s' == s.(shared := s.shared + {c}, savers := s.savers[c := v.(stage := Searching, at := v.pid)])
    case Searching =>       // the index lock is taken, or its file exists: next index; else hold the index
      if v.at in s.indexLocks || v.at in s.files then s' == s.(savers := s.savers[c := v.(at := v.at + 1)])
      else s' == s.(indexLocks := s.indexLocks[v.at := c], savers := s.savers[c := v.(stage := Holding)])
    case Holding =>         // open for writing truncates or creates
      s' == s.(files := s.files[v.at := Torn(c)], savers := s.savers[c := v.(stage := Writing)])
    case Writing =>         // the pickle is complete
      s' == s.(files := s.files[v.at := Whole(c, v.extras, v.version)], savers := s.savers[c := v.(stage := Written)])
    case Written =>
      s' == s.(indexLocks := s.indexLocks - {v.at}, savers := s.savers[c := v.(stage := Unlocked)])
    case Unlocked =>
      s' == s.(shared := s.shared - {c}, savers := s.savers[c := v.(stage := Finished)])
    case Finished => false
    case Dead => false
  }

  /** The process dies; its locks are released with it. */
  ghost predicate Crash<V>(s: State<V>, s': State<V>, c: Call) {
    c in s.savers && s.savers[c].stage !in {Finished, Dead}
    && s' == s.(shared := s.shared - {c}, savers := s.savers[c := s.savers[c].(stage := Dead)],
                indexLocks := map i | i in s.indexLocks && s.indexLocks[i] != c :: s.indexLocks[i])
  }

  /** A torn file that raises EOFError and one of another version are skipped; neither changes the data. */
  function AfterReading<V>(s: State<V>, i: nat): seq<map<string, V>> {
    if i in s.files && s.files[i].Whole? && s.files[i].version == VERSION && |s.files[i].data| == |s.data|
    then Merged(s.files[i].data, s.data)
    else s.data
  }

  ghost predicate MergerStep<V>(s: State<V>, s': State<V>) {
    match s.merger
    case Away =>            // the exclusive lock, then the directory listing
      s.shared == {} && !s.exclusive && s' == s.(exclusive := true, merger := Merging(s.files.Keys))
    case Merging(todo) =>
      if todo == {} then s' == s.(exclusive := false, merger := Away, disk := s.data)
      else exists i :: i in todo && s' == s.(merger := Unlinking(i, todo - {i}), data := AfterReading(s, i))
    case Unlinking(now, left) =>
      s' == s.(files := s.files - {now}, merger := Merging(left))
  }

  /** A torn file that raises anything else ends the pass: the files stay, and nothing is written. */
  ghost predicate Abort<V>(s: State<V>, s': State<V>) {
    && s.merger.Merging? && (exists i :: i in s.merger.todo && i in s.files && s.files[i].Torn?)
    && s' == s.(exclusive := false, merger := Away)
  }

  ghost predicate Step<V>(s: State<V>, s': State<V>) {
    (exists c :: SaverStep(s, s', c)) || (exists c :: Crash(s, s', c)) || MergerStep(s, s') || Abort(s, s')
  }

  ghost predicate Run<V>(t: seq<State<V>>) {
    t != [] && Init(t[0]) && forall i :: 0 <= i < |t| - 1 ==> Step(t[i], t[i + 1])
  }

  // ---------- the invariant ----------

  ghost predicate Locks<V>(s: State<V>) {
    OuterLocks(s) && IndexLocks(s)
  }

  /** The lock on the whole directory. */
  ghost predicate OuterLocks<V>(s: State<V>) {
    && (s.exclusive <==> s.merger != Away)
    && (s.exclusive ==> s.shared == {})
    && (forall c :: c in s.shared <==>
       c in s.savers && s.savers[c].stage in {Searching, Holding, Writing, Written, Unlocked})
  }

  /** The locks on single indices. */
  ghost predicate IndexLocks<V>(s: State<V>) {
    (forall i :: i in s.indexLocks ==> OwnedIndex(s, i)) && (forall c :: c in s.savers ==> HoldsIndex(s, c))
  }

  ghost predicate OwnedIndex<V>(s: State<V>, i: nat)
    requires i in s.indexLocks
  {
    var c := s.indexLocks[i];
    c in s.savers && s.savers[c].stage in {Holding, Writing, Written} && s.savers[c].at == i
  }

  ghost predicate HoldsIndex<V>(s: State<V>, c: Call)
    requires c in s.savers
  {
    s.savers[c].stage in {Holding, Writing, Written} ==>
        s.savers[c].at in s.indexLocks && s.indexLocks[s.savers[c].at] == c
  }

  ghost predicate FileOk<V>(s: State<V>, c: Call)
    requires c in s.savers
  {
    var v := s.savers[c];
    && |v.extras| == |s.data|
    && (v.stage == Holding ==> v.at !in s.files)
    && (v.stage == Writing ==> v.at in s.files && s.files[v.at] == Torn(c))
    && (v.stage in {Written, Unlocked, Finished} ==> Safe(s, c))
  }

  /** The call's file is still there as written, or its entries have reached the merger. */
  ghost predicate Safe<V>(s: State<V>, c: Call)
    requires c in s.savers
  {
    var v := s.savers[c];
    || (v.at in s.files && s.files[v.at] == Whole(c, v.extras, v.version))
    || (v.version == VERSION ==> Covers(s.data, v.extras))
  }

  ghost predicate Passing<V>(s: State<V>) {
    match s.merger
    case Away => true
    case Merging(todo) => s.files.Keys <= todo
    case Unlinking(now, left) =>
      && s.files.Keys <= left + {now}
      && (now in s.files && s.files[now].Whole? && s.files[now].version == VERSION &&
          |s.files[now].data| == |s.data| ==>
            Covers(s.data, s.files[now].data))
  }

  ghost predicate Inv<V>(s: State<V>) {
    Locks(s) && Passing(s) && forall c :: c in s.savers ==> FileOk(s, c)
  }

  lemma MergedFacts<V>(source: seq<map<string, V>>, dest: seq<map<string, V>>)
    requires |source| == |dest|
    ensures Extends(dest, Merged(source, dest)) && Covers(Merged(source, dest), source)
  {
  }

  lemma ExtendsCovers<V>(data: seq<map<string, V>>, data': seq<map<string, V>>, extras: seq<map<string, V>>)
    requires Extends(data, data') && Covers(data, extras)
    ensures Covers(data', extras)
  {
  }

  lemma SaverLocks<V>(s: State<V>, s': State<V>, c: Call)
    requires Locks(s) && SaverStep(s, s', c)
    ensures Locks(s')
  {
    SaverOuter(s, s', c);
    SaverIndex(s, s', c);
  }

  lemma SaverOuter<V>(s: State<V>, s': State<V>, c: Call)
    requires OuterLocks(s) && SaverStep(s, s', c)
    ensures OuterLocks(s')
  {
  }

  lemma SaverIndex<V>(s: State<V>, s': State<V>, c: Call)
    requires IndexLocks(s) && SaverStep(s, s', c)
    ensures IndexLocks(s')
  {
    forall i | i in s'.indexLocks ensures OwnedIndex(s', i) {
      SaverOwned(s, s', c, i);
    }
    forall d | d in s'.savers ensures HoldsIndex(s', d) {
      SaverHolds(s, s', c, d);
    }
  }

  lemma SaverOwned<V>(s: State<V>, s': State<V>, c: Call, i: nat)
    requires SaverStep(s, s', c) && i in s'.indexLocks && HoldsIndex(s, c)
    requires i in s.indexLocks ==> OwnedIndex(s, i)
    ensures OwnedIndex(s', i)
  {
  }

  lemma SaverHolds<V>(s: State<V>, s': State<V>, c: Call, d: Call)
    requires SaverStep(s, s', c) && d in s'.savers && HoldsIndex(s, c)
    requires d in s.savers ==> HoldsIndex(s, d)
    ensures HoldsIndex(s', d)
  {
  }

  /** The steps of one call do not touch the others' files. */
  lemma SaverFiles<V>(s: State<V>, s': State<V>, c: Call, d: Call)
    requires Locks(s) && SaverStep(s, s', c)
    requires d in s.savers && FileOk(s, d) && FileOk(s, c)
    ensures FileOk(s', d)
  {
    var v := s.savers[c];
    if d != c && v.stage in {Holding, Writing} {
      assert s.indexLocks[v.at] == c;
      assert s'.savers[d] == s.savers[d];
    }
  }

  lemma SaverInv<V>(s: State<V>, s': State<V>, c: Call)
    requires Inv(s) && SaverStep(s, s', c)
    ensures Inv(s')
  {
    SaverLocks(s, s', c);
    assert FileOk(s, c);
    assert Passing(s') by {
      if s.savers[c].stage != Idle {
        assert c in s.shared;
      }
    }
    hide FileOk, Locks, SaverStep, Passing;
    forall d | d in s'.savers ensures FileOk(s', d) {
      SaverKeeps(s, s', c);
      SaverFiles(s, s', c, d);
    }
  }

  lemma SaverKeeps<V>(s: State<V>, s': State<V>, c: Call)
    requires SaverStep(s, s', c)
    ensures s'.savers.Keys == s.savers.Keys
  {
  }

  lemma CrashInv<V>(s: State<V>, s': State<V>, c: Call)
    requires Inv(s) && Crash(s, s', c)
    ensures Inv(s')
  {
    forall d | d in s'.savers ensures FileOk(s', d) {
      assert FileOk(s, d);
    }
  }

  lemma MergerInv<V>(s: State<V>, s': State<V>)
    requires Inv(s) && MergerStep(s, s')
    ensures Inv(s')
  {
    if s.merger.Merging? && s.merger.todo != {} {
      var i :| i in s.merger.todo && s' == s.(merger := Unlinking(i, s.merger.todo - {i}), data := AfterReading(s, i));
      ReadingFacts(s, i);
    }
    forall d | d in s'.savers ensures FileOk(s', d) {
      assert FileOk(s, d);
      if Safe(s, d) && Covers(s.data, s.savers[d].extras) && Extends(s.data, s'.data) {
        ExtendsCovers(s.data, s'.data, s.savers[d].extras);
      }
    }
  }

  lemma AbortInv<V>(s: State<V>, s': State<V>)
    requires Inv(s) && Abort(s, s')
    ensures Inv(s')
  {
    forall d | d in s'.savers ensures FileOk(s', d) {
      assert FileOk(s, d);
    }
  }

  lemma ReadingFacts<V>(s: State<V>, i: nat)
    ensures Extends(s.data, AfterReading(s, i))
    ensures i in s.files && s.files[i].Whole? && s.files[i].version == VERSION && |s.files[i].data| == |s.data| ==>
              Covers(AfterReading(s, i), s.files[i].data)
  {
    if i in s.files && s.files[i].Whole? && |s.files[i].data| == |s.data| {
      MergedFacts(s.files[i].data, s.data);
    }
  }

  lemma StepInv<V>(s: State<V>, s': State<V>)
    requires Inv(s) && Step(s, s')
    ensures Inv(s')
  {
    if c :| SaverStep(s, s', c) {
      SaverInv(s, s', c);
    } else if c :| Crash(s, s', c) {
      CrashInv(s, s', c);
    } else if MergerStep(s, s') {
      MergerInv(s, s');
    } else {
      AbortInv(s, s');
    }
  }

  /** One step never overwrites a finished file and never changes an entry already merged. */
  lemma StepKeeps<V>(s: State<V>, s': State<V>)
    requires Inv(s) && Step(s, s')
    ensures forall i :: i in s.files && s.files[i].Whole? && i in s'.files ==> s'.files[i] == s.files[i]
    ensures Extends(s.data, s'.data)
  {
    if c :| SaverStep(s, s', c) {
      assert FileOk(s, c);
    } else if c :| Crash(s, s', c) {
    } else if MergerStep(s, s') && s.merger.Merging? && s.merger.todo != {} {
      var i :| i in s.merger.todo && s' == s.(merger := Unlinking(i, s.merger.todo - {i}), data := AfterReading(s, i));
      ReadingFacts(s, i);
    }
  }

  lemma ExtendsRefl<V>(a: seq<map<string, V>>)
    ensures Extends(a, a)
  {
  }

  lemma ExtendsTrans<V>(a: seq<map<string, V>>, b: seq<map<string, V>>, c: seq<map<string, V>>)
    requires Extends(a, b) && Extends(b, c)
    ensures Extends(a, c)
  {
  }

  // ---------- whole runs ----------

  lemma {:induction false} RunInv<V>(t: seq<State<V>>, i: nat)
    requires Run(t) && i < |t|
    ensures Inv(t[i])
  {
    if i > 0 {
      hide Step, Inv;
      RunInv(t, i - 1);
      assert Step(t[i - 1], t[i - 1 + 1]);
      StepInv(t[i - 1], t[i]);
    }
  }

  /** An entry, once merged, keeps its value for the rest of the run. */
  lemma {:induction false} MergedForGood<V>(t: seq<State<V>>, i: nat, j: nat)
    requires Run(t) && i <= j < |t|
    ensures Extends(t[i].data, t[j].data)
  {
    hide Step, Inv, Extends;
    ExtendsRefl(t[i].data);
    if i < j {
      MergedForGood(t, i, j - 1);
      RunInv(t, j - 1);
      assert Step(t[j - 1], t[j - 1 + 1]);
      StepKeeps(t[j - 1], t[j]);
      ExtendsTrans(t[i].data, t[j - 1].data, t[j].data);
    }
  }

  // ---------- where values come from ----------

  /** Whether the data, a file or a call of this state has this value for the key. */
  ghost predicate Offers<V>(s: State<V>, j: nat, h: string, x: V) {
    || Holds(s.data, j, h, x)
    || (exists i ::
       i in s.files && s.files[i].Whole? && s.files[i].version == VERSION &&
       Holds(s.files[i].data, j, h, x))
    || (exists c :: c in s.savers && s.savers[c].version == VERSION && Holds(s.savers[c].extras, j, h, x))
  }

  ghost predicate Holds<V>(data: seq<map<string, V>>, j: nat, h: string, x: V) {
    j < |data| && h in data[j] && data[j][h] == x
  }

  /** All of it was there at the beginning. */
  ghost predicate Old<V>(s0: State<V>, data: seq<map<string, V>>) {
    forall j, h :: 0 <= j < |data| && h in data[j] ==> Offers(s0, j, h, data[j][h])
  }

  ghost predicate Drawn<V>(s0: State<V>, s: State<V>) {
    && SameCalls(s0, s) && Old(s0, s.data)
    && forall i :: i in s.files && s.files[i].Whole? && s.files[i].version == VERSION ==> Old(s0, s.files[i].data)
  }

  ghost predicate SameCalls<V>(s0: State<V>, s: State<V>) {
    s.savers.Keys == s0.savers.Keys &&
        forall c :: c in s.savers ==>
        s.savers[c].extras == s0.savers[c].extras &&
        s.savers[c].version == s0.savers[c].version
  }

  lemma DrawnStart<V>(s: State<V>)
    ensures Drawn(s, s)
  {
    assert forall j: nat, h :: j < |s.data| && h in s.data[j] ==> Holds(s.data, j, h, s.data[j][h]);
    forall i | i in s.files && s.files[i].Whole? && s.files[i].version == VERSION ensures Old(s, s.files[i].data) {
      var data := s.files[i].data;
      assert forall j: nat, h :: j < |data| && h in data[j] ==> Holds(data, j, h, data[j][h]);
    }
  }

  lemma CallOld<V>(s0: State<V>, s: State<V>, c: Call)
    requires SameCalls(s0, s) && c in s.savers && s.savers[c].version == VERSION
    ensures Old(s0, s.savers[c].extras)
  {
    var data := s.savers[c].extras;
    assert forall j: nat, h :: j < |data| && h in data[j] ==> Holds(s0.savers[c].extras, j, h, data[j][h]);
  }

  lemma MergedOld<V>(s0: State<V>, source: seq<map<string, V>>, dest: seq<map<string, V>>)
    requires |source| == |dest| && Old(s0, source) && Old(s0, dest)
    ensures Old(s0, Merged(source, dest))
  {
  }

  lemma DrawnStep<V>(s0: State<V>, s: State<V>, s': State<V>)
    requires Drawn(s0, s) && Step(s, s')
    ensures Drawn(s0, s')
  {
    if c :| SaverStep(s, s', c) {
      SaverDrawn(s0, s, s', c);
    } else if c :| Crash(s, s', c) {
      CrashDrawn(s0, s, s', c);
    } else if MergerStep(s, s') {
      MergerDrawn(s0, s, s');
    }
  }

  /** A call writes no more than its own file. */
  lemma SaverChanges<V>(s: State<V>, s': State<V>, c: Call)
    requires SaverStep(s, s', c)
    ensures s'.data == s.data && s'.disk == s.disk && s'.merger == s.merger && SameCalls(s, s')
    ensures forall i :: i in s'.files ==>
            (i in s.files && s'.files[i] == s.files[i]) || s'.files[i].Torn? ||
            s'.files[i] == Whole(c, s.savers[c].extras, s.savers[c].version)
  {
  }

  lemma SaverDrawn<V>(s0: State<V>, s: State<V>, s': State<V>, c: Call)
    requires Drawn(s0, s) && SaverStep(s, s', c)
    ensures Drawn(s0, s')
  {
    SaverChanges(s, s', c);
    assert c in s.savers;
    hide Old, SaverStep;
    if s.savers[c].version == VERSION {
      CallOld(s0, s, c);
    }
  }

  lemma CrashDrawn<V>(s0: State<V>, s: State<V>, s': State<V>, c: Call)
    requires Drawn(s0, s) && Crash(s, s', c)
    ensures Drawn(s0, s')
  {
    hide Old;
  }

  lemma MergerDrawn<V>(s0: State<V>, s: State<V>, s': State<V>)
    requires Drawn(s0, s) && MergerStep(s, s')
    ensures Drawn(s0, s')
  {
    hide Old;
    if s.merger.Merging? && s.merger.todo != {} {
      var i :| i in s.merger.todo && s' == s.(merger := Unlinking(i, s.merger.todo - {i}), data := AfterReading(s, i));
      if AfterReading(s, i) != s.data {
        MergedOld(s0, s.files[i].data, s.data);
      }
    }
  }

  lemma {:induction false} RunDrawn<V>(t: seq<State<V>>, i: nat)
    requires Run(t) && i < |t|
    ensures Drawn(t[0], t[i])
  {
    hide Step, Drawn;
    DrawnStart(t[0]);
    if i > 0 {
      RunDrawn(t, i - 1);
      assert Step(t[i - 1], t[i - 1 + 1]);
      DrawnStep(t[0], t[i - 1], t[i]);
    }
  }

  /** Whatever has been merged was offered for its key at the beginning: by the data, a file or a call. */
  lemma NothingInvented<V>(t: seq<State<V>>, i: nat, j: nat, h: string)
    requires Run(t) && i < |t| && j < |t[i].data| && h in t[i].data[j]
    ensures Offers(t[0], j, h, t[i].data[j][h])
  {
    RunDrawn(t, i);
  }

  /** All keys of extras are in the data, with the same value wherever nothing else was offered for the key. */
  ghost predicate Arrived<V>(s0: State<V>, data: seq<map<string, V>>, extras: seq<map<string, V>>) {
    && Covers(data, extras)
    && forall j, h :: 0 <= j < |extras| && h in extras[j] && Agreed(s0, j, h, extras[j][h]) ==>
       data[j][h] == extras[j][h]
  }

  /** Whoever has the key has this value for it. */
  ghost predicate Agreed<V>(s: State<V>, j: nat, h: string, x: V) {
    && Allows(s.data, j, h, x)
    && (forall i :: i in s.files && s.files[i].Whole? && s.files[i].version == VERSION ==>
       Allows(s.files[i].data, j, h, x))
    && (forall c :: c in s.savers && s.savers[c].version == VERSION ==> Allows(s.savers[c].extras, j, h, x))
  }

  ghost predicate Allows<V>(data: seq<map<string, V>>, j: nat, h: string, x: V) {
    j < |data| && h in data[j] ==> data[j][h] == x
  }

  lemma AgreedOffer<V>(s: State<V>, j: nat, h: string, x: V, y: V)
    requires Agreed(s, j, h, x) && Offers(s, j, h, y)
    ensures x == y
  {
  }

  lemma CoveredArrived<V>(t: seq<State<V>>, i: nat, extras: seq<map<string, V>>)
    requires Run(t) && i < |t| && Covers(t[i].data, extras)
    ensures Arrived(t[0], t[i].data, extras)
  {
    hide Run, Offers, Agreed;
    forall j, h | 0 <= j < |extras| && h in extras[j] && Agreed(t[0], j, h, extras[j][h])
        ensures t[i].data[j][h] == extras[j][h] {
      assert h in extras[j].Keys;
      NothingInvented(t, i, j, h);
      AgreedOffer(t[0], j, h, extras[j][h], t[i].data[j][h]);
    }
  }

  /** No call that returned is lost, even if passes are cut short: its file is intact, or its entries have arrived. */
  lemma NothingLost<V>(t: seq<State<V>>, i: nat, c: Call)
    requires Run(t) && i < |t|
    requires c in t[i].savers && t[i].savers[c].stage == Finished && t[i].savers[c].version == VERSION
    ensures var v := t[i].savers[c];
            (v.at in t[i].files && t[i].files[v.at] == Whole(c, v.extras, VERSION)) ||
                Arrived(t[0], t[i].data, v.extras)
  {
    RunInv(t, i);
    assert FileOk(t[i], c);
    if Covers(t[i].data, t[i].savers[c].extras) {
      CoveredArrived(t, i, t[i].savers[c].extras);
    }
  }

  /** When all files have been read, every call that had returned is in the merged data, and no file is left. */
  lemma PassIsComplete<V>(t: seq<State<V>>, i: nat, c: Call)
    requires Run(t) && i < |t| && t[i].merger == Merging({})
    requires c in t[i].savers && t[i].savers[c].stage == Finished && t[i].savers[c].version == VERSION
    ensures t[i].files == map[] && Arrived(t[0], t[i].data, t[i].savers[c].extras)
  {
    RunInv(t, i);
    assert FileOk(t[i], c);
    CoveredArrived(t, i, t[i].savers[c].extras);
  }

  // ---------- passes that end early ----------

  /** Whoever tore a file is still writing it, is dead, or was there before. */
  ghost predicate TornBy<V>(s: State<V>, i: nat)
    requires i in s.files
  {
    s.files[i].Torn? ==> var c := s.files[i].writer; c in s.savers ==>
        (s.savers[c].stage == Writing && s.savers[c].at == i) || s.savers[c].stage == Dead
  }

  lemma TornStep<V>(s: State<V>, s': State<V>, i: nat)
    requires Inv(s) && Step(s, s') && i in s'.files && (i in s.files ==> TornBy(s, i))
    ensures TornBy(s', i)
  {
    if c :| SaverStep(s, s', c) {
      SaverTorn(s, s', c, i);
    } else if c :| Crash(s, s', c) {
    }
  }

  lemma SaverTorn<V>(s: State<V>, s': State<V>, c: Call, i: nat)
    requires SaverStep(s, s', c) && i in s'.files && (i in s.files ==> TornBy(s, i))
    ensures TornBy(s', i)
  {
  }

  lemma {:induction false} RunTorn<V>(t: seq<State<V>>, i: nat)
    requires Run(t) && i < |t|
    ensures forall k :: k in t[i].files ==> TornBy(t[i], k)
  {
    hide Step, Inv;
    if i > 0 {
      RunTorn(t, i - 1);
      RunInv(t, i - 1);
      assert Step(t[i - 1], t[i - 1 + 1]);
      forall k | k in t[i].files ensures TornBy(t[i], k) {
        TornStep(t[i - 1], t[i], k);
      }
    }
  }

  /** A pass is cut short only by what a call left that died, or by a file torn before the run. */
  lemma AbortNeedsDeath<V>(t: seq<State<V>>, i: nat)
    requires Run(t) && i + 1 < |t| && Abort(t[i], t[i + 1])
    ensures exists k ::
            k in t[i].files && t[i].files[k].Torn? &&
            (t[i].files[k].writer !in t[i].savers || t[i].savers[t[i].files[k].writer].stage == Dead)
  {
    RunInv(t, i);
    RunTorn(t, i);
    var k :| k in t[i].merger.todo && k in t[i].files && t[i].files[k].Torn?;
    assert TornBy(t[i], k);
    assert t[i].exclusive;
  }

  ghost function Work<V>(s: State<V>): nat {
    match s.merger
    case Away => 0
    case Merging(todo) => 2 * |todo| + 1
    case Unlinking(_, left) => 2 * |left| + 2
  }

  /** Otherwise each step of a pass leaves less to do. */
  lemma PassProgress<V>(s: State<V>, s': State<V>)
    requires s.merger != Away && MergerStep(s, s')
    ensures Work(s') < Work(s)
  {
    if s.merger.Merging? && s.merger.todo != {} {
      var i :| i in s.merger.todo && s' == s.(merger := Unlinking(i, s.merger.todo - {i}), data := AfterReading(s, i));
      assert s.merger.todo == (s.merger.todo - {i}) + {i};
    }
  }

  // ---------- everybody gets through ----------

  lemma RunPush<V>(t: seq<State<V>>, s': State<V>)
    requires Run(t) && Step(t[|t| - 1], s')
    ensures Run(t + [s'])
  {
    hide Step, Init;
    var longer := t + [s'];
    forall i | 0 <= i < |longer| - 1 ensures Step(longer[i], longer[i + 1]) {
      if i < |t| - 1 {
        assert Step(t[i], t[i + 1]);
      }
    }
  }

  function StagesLeft(stage: Stage): nat {
    match stage
    case Idle => 6
    case Searching => 5
    case Holding => 4
    case Writing => 3
    case Written => 2
    case Unlocked => 1
    case Finished => 0
    case Dead => 0
  }

  /** The indices from n on that a search must pass over. */
  ghost function InTheWay<V>(s: State<V>, n: nat): set<nat> {
    set i | i in s.files.Keys + s.indexLocks.Keys && n <= i
  }

  ghost predicate OthersSame<V>(s: State<V>, s': State<V>, c: Call) {
    && s'.savers.Keys == s.savers.Keys
    && forall d :: d in s.savers && d != c ==> s'.savers[d] == s.savers[d]
  }

  /** Between passes a call that has begun can always go on, and its search for an index comes to an end. */
  lemma CallProgress<V>(s: State<V>, c: Call) returns (s': State<V>)
    requires s.merger == Away && !s.exclusive && c in s.savers && s.savers[c].stage !in {Finished, Dead}
    ensures SaverStep(s, s', c) && s'.merger == Away && OthersSame(s, s', c) && s'.savers[c].stage != Dead
    ensures var v, v' := s.savers[c], s'.savers[c];
            StagesLeft(v'.stage) < StagesLeft(v.stage) ||
            (v'.stage == v.stage && InTheWay(s', v'.at) < InTheWay(s, v.at))
  {
    var v := s.savers[c];
    match v.stage
    case Idle =>
      s' := s.(shared := s.shared + {c}, savers := s.savers[c := v.(stage := Searching, at := v.pid)]);
    case Searching =>
      if v.at in s.indexLocks || v.at in s.files {
        s' := s.(savers := s.savers[c := v.(at := v.at + 1)]);
        assert v.at in InTheWay(s, v.at) && v.at !in InTheWay(s', v.at + 1);
      } else {
        s' := s.(indexLocks := s.indexLocks[v.at := c], savers := s.savers[c := v.(stage := Holding)]);
      }
    case Holding =>
      s' := s.(files := s.files[v.at := Torn(c)], savers := s.savers[c := v.(stage := Writing)]);
    case Writing =>
      s' := s.(files := s.files[v.at := Whole(c, v.extras, v.version)], savers := s.savers[c := v.(stage := Written)]);
    case Written =>
      s' := s.(indexLocks := s.indexLocks - {v.at}, savers := s.savers[c := v.(stage := Unlocked)]);
    case Unlocked =>
      s' := s.(shared := s.shared - {c}, savers := s.savers[c := v.(stage := Finished)]);
  }

  lemma {:induction false} FinishCall<V>(t: seq<State<V>>, c: Call) returns (u: seq<State<V>>)
    requires Run(t) && t[|t| - 1].merger == Away && c in t[|t| - 1].savers
    ensures t <= u && Run(u)
    ensures var s, z := t[|t| - 1], u[|u| - 1];
            z.merger == Away && OthersSame(s, z, c) &&
            z.savers[c].stage == if s.savers[c].stage == Dead then Dead else Finished
    decreases StagesLeft(t[|t| - 1].savers[c].stage), InTheWay(t[|t| - 1], t[|t| - 1].savers[c].at)
  {
    var s := t[|t| - 1];
    hide Run, Step, InTheWay, FileOk, Passing, IndexLocks;
    if s.savers[c].stage in {Finished, Dead} {
      u := t;
    } else {
      RunInv(t, |t| - 1);
      var s' := CallProgress(s, c);
      OneMore(t, s', c);
      u := FinishCall(t + [s'], c);
      hide OuterLocks, SaverStep;
      assert t <= t + [s'];
    }
  }

  lemma OneMore<V>(t: seq<State<V>>, s': State<V>, c: Call)
    requires Run(t) && SaverStep(t[|t| - 1], s', c)
    ensures Run(t + [s'])
  {
    RunPush(t, s') by {
      hide SaverStep;
      assert Step(t[|t| - 1], s');
    }
  }

  /** The calls that are not through. */
  ghost function Open<V>(s: State<V>): set<Call> {
    set c | c in s.savers && s.savers[c].stage !in {Finished, Dead}
  }

  /** Every call has returned or died, and none has died since. */
  ghost predicate Through<V>(s: State<V>, z: State<V>) {
    && z.savers.Keys == s.savers.Keys
    && forall c :: c in s.savers ==> z.savers[c].stage == if s.savers[c].stage == Dead then Dead else Finished
  }

  lemma {:induction false} FinishCalls<V>(t: seq<State<V>>) returns (u: seq<State<V>>)
    requires Run(t) && t[|t| - 1].merger == Away
    ensures t <= u && Run(u) && u[|u| - 1].merger == Away && Through(t[|t| - 1], u[|u| - 1])
    decreases Open(t[|t| - 1])
  {
    var s := t[|t| - 1];
    hide Run;
    if c :| c in Open(s) {
      var v := FinishCall(t, c);
      var m := v[|v| - 1];
      assert Open(m) <= Open(s) && c !in Open(m);
      u := FinishCalls(v);
      assert forall d :: d in s.savers && d != c ==> m.savers[d] == s.savers[d];
    } else {
      u := t;
      assert forall c :: c in s.savers ==> c !in Open(s);
    }
  }

  lemma MergerAdvance<V>(s: State<V>) returns (s': State<V>)
    requires s.merger != Away && Passing(s)
    ensures MergerStep(s, s') && s'.savers == s.savers
    ensures s'.merger == Away ==> s'.files == map[] && s'.disk == s'.data
  {
    hide AfterReading;
    match s.merger {
      case Merging(todo) =>
        if todo == {} {
          s' := s.(exclusive := false, merger := Away, disk := s.data);
        } else {
          var i :| i in todo;
          s' := s.(merger := Unlinking(i, todo - {i}), data := AfterReading(s, i));
        }
      case Unlinking(now, left) =>
        s' := s.(files := s.files - {now}, merger := Merging(left));
    }
  }

  /** A pass that is under way can be completed; it leaves no file, and all that is merged on the disk. */
  lemma {:induction false} FinishPass<V>(t: seq<State<V>>) returns (u: seq<State<V>>)
    requires Run(t) && t[|t| - 1].merger != Away
    ensures t <= u && Run(u)
    ensures var s, z := t[|t| - 1], u[|u| - 1];
            z.merger == Away && z.files == map[] && z.disk == z.data && z.savers == s.savers
    decreases Work(t[|t| - 1])
  {
    var s := t[|t| - 1];
    hide Run, Locks, FileOk, AfterReading, SaverStep, Crash, Abort;
    RunInv(t, |t| - 1);
    var s' := MergerAdvance(s);
    PassProgress(s, s');
    RunPush(t, s');
    if s'.merger == Away {
      u := t + [s'];
    } else {
      u := FinishPass(t + [s']);
    }
  }

  /**
   However far everybody has come, all can be brought to an end without a further death: each call that
   lives returns, no file is left, and what all of them had is on the disk.
   */
  lemma CanSettle<V>(t: seq<State<V>>) returns (u: seq<State<V>>)
    requires Run(t)
    ensures t <= u && Run(u)
    ensures var s, z := t[|t| - 1], u[|u| - 1];
            && z.merger == Away && z.files == map[] && z.disk == z.data && Through(s, z)
            && forall c :: c in z.savers && z.savers[c].stage != Dead && z.savers[c].version == VERSION ==>
                 Arrived(t[0], z.disk, z.savers[c].extras)
  {
    u := t;
    assert t != [];
    hide Run, Arrived;
    if t[|t| - 1].merger != Away {
      u := FinishPass(t);
    }
    u := FinishCalls(u);
    u := StartPass(u);
    u := FinishPass(u);
    var z := u[|u| - 1];
    forall c | c in z.savers && z.savers[c].stage != Dead && z.savers[c].version == VERSION
        ensures Arrived(t[0], z.disk, z.savers[c].extras) {
      NothingLost(u, |u| - 1, c);
    }
  }

  /** With no call under way the merger can take the lock. */
  lemma StartPass<V>(t: seq<State<V>>) returns (u: seq<State<V>>)
    requires Run(t)
    requires var s := t[|t| - 1];
             s.merger == Away && forall c :: c in s.savers ==> s.savers[c].stage in {Finished, Dead}
    ensures t <= u && Run(u)
    ensures u[|u| - 1].merger != Away && u[|u| - 1].savers == t[|t| - 1].savers
  {
    var s := t[|t| - 1];
    hide Run, FileOk, IndexLocks, Passing, SaverStep, Crash, Abort;
    RunInv(t, |t| - 1);
    assert s.shared == {};
    var s' := s.(exclusive := true, merger := Merging(s.files.Keys));
    assert MergerStep(s, s');
    RunPush(t, s');
    u := t + [s'];
  }

  // ---------- what is on the disk ----------

  /** The step that completes a pass. */
  ghost predicate Writes<V>(s: State<V>, s': State<V>) {
    s.merger == Merging({}) && s' == s.(exclusive := false, merger := Away, disk := s.data)
  }

  /** Where the last pass was completed; the beginning, if none was yet. */
  ghost function LastWrite<V>(t: seq<State<V>>, i: nat): (k: nat)
    requires i < |t|
    ensures k <= i
  {
    if i == 0 then 0
    else if Writes(t[i - 1], t[i]) then i
    else LastWrite(t, i - 1)
  }

  lemma OnlyWritesWrite<V>(s: State<V>, s': State<V>)
    requires Step(s, s') && !Writes(s, s')
    ensures s'.disk == s.disk
  {
    if c :| SaverStep(s, s', c) {
      SaverChanges(s, s', c);
    } else if c :| Crash(s, s', c) {
    } else {
      hide SaverStep, Crash, AfterReading;
    }
  }

  /** The disk holds what had been merged when the last pass was completed. */
  lemma {:induction false} DiskIsLastWrite<V>(t: seq<State<V>>, i: nat)
    requires Run(t) && i < |t|
    ensures t[i].disk == t[LastWrite(t, i)].data
  {
    hide Step;
    if i > 0 {
      assert Step(t[i - 1], t[i - 1 + 1]);
      if !Writes(t[i - 1], t[i]) {
        DiskIsLastWrite(t, i - 1);
        OnlyWritesWrite(t[i - 1], t[i]);
      }
    }
  }

  ghost predicate NothingNew<V>(was: seq<map<string, V>>, now: seq<map<string, V>>) {
    |was| == |now| && forall j, h :: 0 <= j < |now| && h in now[j] ==> h in was[j]
  }

  /** All that is merged is on the disk exactly if no key was merged since the last pass that was completed. */
  lemma OnDiskExactly<V>(t: seq<State<V>>, i: nat)
    requires Run(t) && i < |t|
    ensures t[i].disk == t[i].data <==> NothingNew(t[LastWrite(t, i)].data, t[i].data)
  {
    hide Run;
    DiskIsLastWrite(t, i);
    var was, now := t[LastWrite(t, i)].data, t[i].data;
    MergedForGood(t, LastWrite(t, i), i);
    if NothingNew(was, now) {
      assert forall j :: 0 <= j < |now| ==> was[j] == now[j];
    }
  }

  /** Between passes it all is, unless one has been cut short since the last that was completed. */
  lemma {:induction false} OnDisk<V>(t: seq<State<V>>, i: nat)
    requires Run(t) && i < |t| && forall k :: LastWrite(t, i) <= k < i ==> !Abort(t[k], t[k + 1])
    ensures t[i].merger == Away ==> t[i].disk == t[i].data
  {
    hide Step, Abort;
    if i > 0 && !Writes(t[i - 1], t[i]) {
      OnDisk(t, i - 1);
      assert Step(t[i - 1], t[i - 1 + 1]) && !Abort(t[i - 1], t[i - 1 + 1]);
      OnDiskStep(t[i - 1], t[i]);
    }
  }

  lemma OnDiskStep<V>(s: State<V>, s': State<V>)
    requires Step(s, s') && !Abort(s, s') && (s.merger == Away ==> s.disk == s.data)
    ensures s'.merger == Away ==> s'.disk == s'.data
  {
    if c :| SaverStep(s, s', c) {
      SaverChanges(s, s', c);
    } else if c :| Crash(s, s', c) {
    } else {
      hide SaverStep, Crash, AfterReading;
    }
  }

  /**
   A pass cut short has removed the files it read before, and written nothing: here an entry is
   left in memory only.
   */
  lemma InMemoryOnly() returns (t: seq<State<int>>)
    ensures Run(t) && var s := t[|t| - 1];
            s.merger == Away && s.data == [map["k" := 1]] && s.disk == [map[]] && s.files == map[2 := Torn(0)]
    ensures 1 in t[0].files && t[0].files[1] == Whole(0, [map["k" := 1]], VERSION)
  {
    var file := Whole(0, [map["k" := 1]], VERSION);
    var s0: State<int> := State(map[1 := file, 2 := Torn(0)], map[], {}, false, map[], Away, [map[]], [map[]]);
    var s1 := s0.(exclusive := true, merger := Merging({1, 2}));
    var s2 := s1.(merger := Unlinking(1, {2}), data := [map["k" := 1]]);
    var s3 := s2.(files := map[2 := Torn(0)], merger := Merging({2}));
    var s4 := s3.(exclusive := false, merger := Away);
    t := [s0, s1, s2, s3, s4];
    assert s0.files.Keys == {1, 2};
    var m: map<string, int> := map["k" := 1];
    assert m + map[] == m && Merged([m], [map[]]) == [m];
    assert AfterReading(s1, 1) == s2.data;
    assert {1, 2} - {1} == {2};
    assert 1 in {1, 2} && MergerStep(s1, s2);
    assert s2.files - {1} == s3.files;
    assert s3 == s2.(files := s2.files - {1}, merger := Merging({2}));
    assert 2 in {2} && Abort(s3, s4);
    assert MergerStep(s0, s1) && MergerStep(s2, s3);
    assert forall i :: 0 <= i < |t| - 1 ==> Step(t[i], t[i + 1]) by {
      assert Step(s0, s1) && Step(s1, s2) && Step(s2, s3) && Step(s3, s4);
    }
  }
}
