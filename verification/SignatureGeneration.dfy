/**
 Task signatures: hashes computed while building, the data dumped for later comparison, and
 the recomputation from that data. The digest is an arbitrary function of the hashed string.
 */
module SignatureGeneration {
  import opened Collections
  import opened Strings
  import opened VarDeps

  type Fn = string
  type Tid = string

  const NOSTAMP := "nostamp:"

  /** A file and its checksum; the checksum may be missing. */
  type Checksum = (string, Option<string>)

  /** What is only dumped at run time, once the task hash is known. */
  datatype RuntimeData = RuntimeData(runtaskdeps: seq<Tid>, fileChecksums: seq<Checksum>, runtaskhashes: map<Tid,
      string>, taskhash: string)

  datatype SigData = SigData(
    task: Var, taskdeps: seq<Var>, basehash: string,
    gendeps: map<Var, set<Var>>, varvals: map<Var, Option<string>>,
    runtime: Option<RuntimeData>, taint: Option<string>)

  // ---------- the string a task hash is taken of ----------

  function DepHashes(deps: seq<Tid>, unihash: Tid -> string): string {
    if deps == [] then "" else DepHashes(deps[..|deps| - 1], unihash) + unihash(deps[|deps| - 1])
  }

  /** The part of a path below its "/./" marker counts; a path without one counts by content alone. */
  function FileText(c: Checksum): string {
    if c.1.GetOr("") == "" then ""
    else (if Contains(c.0, "/./") then "./" + SecondPiece(c.0, "/./") else "") + c.1.value
  }

  function FilesText(cs: seq<Checksum>): string {
    if cs == [] then "" else FilesText(cs[..|cs| - 1]) + FileText(cs[|cs| - 1])
  }

  function TaintText(taint: Option<string>): string {
    if taint.None? then ""
    else if StartsWith(taint.value, NOSTAMP) then taint.value[|NOSTAMP|..]
    else taint.value
  }

  function TaskText(basehash: string, deps: seq<Tid>, unihash: Tid -> string, files: seq<Checksum>,
      taint: Option<string>): string {
    basehash + DepHashes(deps, unihash) + FilesText(files) + TaintText(taint)
  }

  // ---------- what the string tells ----------

  lemma CutEven(p: string, a: string, q: string, b: string)
    requires |p| == |q|
    ensures p + a == q + b <==> p == q && a == b
  {
    assert (p + a)[..|p|] == p && (q + b)[..|q|] == q && (p + a)[|p|..] == a && (q + b)[|q|..] == b;
  }

  /** Each dependency contributes its own hash, at its place in the list. */
  lemma {:induction false} DepHashesAt(deps: seq<Tid>, unihash: Tid -> string, i: nat)
    requires i < |deps|
    ensures DepHashes(deps, unihash) ==
            DepHashes(deps[..i], unihash) + unihash(deps[i]) + DepHashes(deps[i + 1..], unihash)
    decreases |deps|
  {
    var n := |deps| - 1;
    if i == n {
      assert deps[i + 1..] == [] && DepHashes([], unihash) == "";
      assert DepHashes(deps, unihash) + "" == DepHashes(deps, unihash);
    } else {
      var front, rest := deps[..n], deps[i + 1..];
      DepHashesAt(front, unihash, i);
      assert front[..i] == deps[..i] && front[i + 1..] == rest[..|rest| - 1] && rest[|rest| - 1] == deps[n];
      var a, b, c := DepHashes(deps[..i], unihash) + unihash(deps[i]), DepHashes(front[i + 1..], unihash),
          unihash(deps[n]);
      assert a + b + c == a + (b + c);
    }
  }

  /** Hashes of equal length: those of all dependencies together are equal exactly if each one is. */
  lemma {:induction false} DepHashesTell(deps: seq<Tid>, unihash: Tid -> string, unihash': Tid -> string)
    requires forall d :: d in deps ==> |unihash(d)| == |unihash'(d)|
    ensures |DepHashes(deps, unihash)| == |DepHashes(deps, unihash')|
    ensures DepHashes(deps, unihash) == DepHashes(deps, unihash') <==>
            forall d :: d in deps ==> unihash(d) == unihash'(d)
  {
    if deps != [] {
      var n := |deps| - 1;
      assert deps == deps[..n] + [deps[n]];
      DepHashesTell(deps[..n], unihash, unihash');
      CutEven(DepHashes(deps[..n], unihash), unihash(deps[n]), DepHashes(deps[..n], unihash'), unihash'(deps[n]));
    }
  }

  lemma FilesStep(cs: seq<Checksum>)
    ensures FilesText(cs) == if cs == [] then "" else FilesText(cs[..|cs| - 1]) + FileText(cs[|cs| - 1])
  {
  }

  /** The same for files. */
  lemma {:induction false} FilesTell(cs: seq<Checksum>, cs': seq<Checksum>)
    requires |cs| == |cs'| && forall i :: 0 <= i < |cs| ==> |FileText(cs[i])| == |FileText(cs'[i])|
    ensures |FilesText(cs)| == |FilesText(cs')|
    ensures FilesText(cs) == FilesText(cs') <==> forall i :: 0 <= i < |cs| ==> FileText(cs[i]) == FileText(cs'[i])
  {
    FilesStep(cs);
    FilesStep(cs');
    hide FileText, FilesText;
    if cs != [] {
      var n := |cs| - 1;
      FilesTell(cs[..n], cs'[..n]);
      CutEven(FilesText(cs[..n]), FileText(cs[n]), FilesText(cs'[..n]), FileText(cs'[n]));
    }
  }

  /**
   A file counts by its checksum; of its path only what follows the marker counts. Without a
   checksum it does not count at all.
   */
  lemma FileCounts(path: string, sum: string, sum': string)
    ensures FileText((path, None)) == "" && FileText((path, Some(""))) == ""
    ensures sum != "" && !Contains(path, "/./") ==> FileText((path, Some(sum))) == sum
    ensures |sum| == |sum'| ==> (FileText((path, Some(sum))) == FileText((path, Some(sum'))) <==> sum == sum')
  {
    hide SecondPiece, Contains;
    if Contains(path, "/./") {
      var shown := "./" + SecondPiece(path, "/./");
      CutEven(shown, sum, shown, sum');
    } else {
      assert "" + sum == sum && "" + sum' == sum';
    }
  }

  lemma MarkedFileCounts(dir: string, name: string, sum: string)
    requires sum != "" && !Contains(name, "/./")
    requires forall k :: 0 <= k < |dir| ==> !("/./" <= (dir + "/./" + name)[k..])
    ensures FileText((dir + "/./" + name, Some(sum))) == "./" + name + sum
  {
    var path := dir + "/./" + name;
    IndexOfFound(path, "/./");
    IndexOfFound(name, "/./");
    assert path[|dir|..] == "/./" + name && "/./" <= path[|dir|..];
    var i := IndexOf(path, "/./").value;
    assert i <= |dir| && path[i..][..3] == path[i..i + 3];
    assert path[|dir| + 3..] == name;
  }

  /** Of a taint counts what follows its marker; without one all of it does. */
  lemma TaintCounts(t: string)
    ensures TaintText(None) == "" && TaintText(Some(NOSTAMP + t)) == t
    ensures !StartsWith(t, NOSTAMP) ==> TaintText(Some(t)) == t
  {
    assert (NOSTAMP + t)[|NOSTAMP|..] == t && NOSTAMP <= NOSTAMP + t;
  }

  /**
   Two states of a task whose hashes and checksums have equal lengths: the strings are equal exactly
   if the base hash, the hash of every dependency, every file and the taint are.
   */
  lemma TaskTextTells(basehash: string, basehash': string, deps: seq<Tid>, unihash: Tid -> string,
      unihash': Tid -> string, files: seq<Checksum>, files': seq<Checksum>, taint: Option<string>,
      taint': Option<string>)
    requires |basehash| == |basehash'| && forall d :: d in deps ==> |unihash(d)| == |unihash'(d)|
    requires |files| == |files'| && forall i :: 0 <= i < |files| ==> |FileText(files[i])| == |FileText(files'[i])|
    ensures TaskText(basehash, deps, unihash, files, taint) == TaskText(basehash', deps, unihash', files', taint') <==>
            && basehash == basehash' && (forall d :: d in deps ==> unihash(d) == unihash'(d))
            && (forall i :: 0 <= i < |files| ==> FileText(files[i]) == FileText(files'[i]))
            && TaintText(taint) == TaintText(taint')
  {
    hide FileText, TaintText;
    DepHashesTell(deps, unihash, unihash');
    FilesTell(files, files');
    var a, a' := basehash + DepHashes(deps, unihash), basehash' + DepHashes(deps, unihash');
    CutEven(basehash, DepHashes(deps, unihash), basehash', DepHashes(deps, unihash'));
    CutEven(a, FilesText(files), a', FilesText(files'));
    CutEven(a + FilesText(files), TaintText(taint), a' + FilesText(files'), TaintText(taint'));
  }

  // ---------- the same from dumped data ----------

  function DumpedFile(c: Checksum): Checksum {
    if Contains(c.0, "/./") then ("./" + SecondPiece(c.0, "/./"), c.1) else (Basename(c.0), c.1)
  }

  function DumpedFiles(cs: seq<Checksum>): seq<Checksum> {
    seq(|cs|, i requires 0 <= i < |cs| => DumpedFile(cs[i]))
  }

  function DumpedFileText(c: Checksum): string {
    if c.1.GetOr("") == "" then ""
    else (if Contains(c.0, "./") then c.0 else "") + c.1.value
  }

  function DumpedFilesText(cs: seq<Checksum>): string {
    if cs == [] then "" else DumpedFilesText(cs[..|cs| - 1]) + DumpedFileText(cs[|cs| - 1])
  }

  function DumpedTaintText(taint: Option<string>): string {
    if taint.None? then ""
    else if Contains(taint.value, NOSTAMP) then
      (IndexOfFound(taint.value, NOSTAMP); taint.value[|NOSTAMP|..])
    else taint.value
  }

  /** The two ways of shortening a path tell the recomputation whether to count it. */
  lemma FileTextSurvives(c: Checksum)
    ensures DumpedFileText(DumpedFile(c)) == FileText(c)
  {
    if Contains(c.0, "/./") {
      assert "./" <= "./" + SecondPiece(c.0, "/./");
    } else {
      BasenameIsUnmarked(c.0);
    }
  }

  lemma BasenameIsUnmarked(path: string)
    ensures !Contains(Basename(path), "./")
  {
    BasenameHasNoSlash(path);
    assert "./"[1] == '/';
    if Contains(Basename(path), "./") {
      ContainsChars(Basename(path), "./");
    }
  }

  lemma {:induction false} FilesTextSurvives(cs: seq<Checksum>)
    ensures DumpedFilesText(DumpedFiles(cs)) == FilesText(cs)
  {
    if cs != [] {
      var k := |cs| - 1;
      assert DumpedFiles(cs)[..k] == DumpedFiles(cs[..k]);
      FilesTextSurvives(cs[..k]);
      FileTextSurvives(cs[k]);
    }
  }

  // ---------- taints ----------

  /** The taint of a task after prep_taskhash: a uuid for nostamp tasks, overridden by a taint file. */
  function PreparedTaint(prior: Option<string>, nostamp: bool, uuid: string, file: string): Option<string> {
    if file != "" then Some(file)
    else if !nostamp || (prior.Some? && StartsWith(prior.value, NOSTAMP)) then prior
    else Some(NOSTAMP + uuid)
  }

  /**
   What a task's taint adds to its text: the contents of its taint file if there is one; else, for a nostamp
   task that has none yet, a new uuid, which changes its hash; and a nostamp taint once made is kept.
   */
  lemma PreparedTaintAdds(prior: Option<string>, nostamp: bool, uuid: string, file: string)
    ensures file != "" && !(NOSTAMP <= file) ==> TaintText(PreparedTaint(prior, nostamp, uuid, file)) == file
    ensures file == "" && nostamp && (prior.None? || !(NOSTAMP <= prior.value)) ==>
            TaintText(PreparedTaint(prior, nostamp, uuid, file)) == uuid
    ensures file == "" && (!nostamp || (prior.Some? && NOSTAMP <= prior.value)) ==>
            PreparedTaint(prior, nostamp, uuid, file) == prior
    ensures file == "" ==>
            var again := PreparedTaint(prior, nostamp, uuid, file);
            forall other :: PreparedTaint(again, nostamp, other, file) == again
  {
    assert NOSTAMP <= NOSTAMP + uuid && (NOSTAMP + uuid)[|NOSTAMP|..] == uuid;
  }

  /** The taint dump_sigtask records: the file's, unless the task's own is a nostamp one. */
  function DumpedTaint(own: Option<string>, file: string): Option<string> {
    if own.Some? && Contains(own.value, NOSTAMP) then own
    else if file != "" then Some(file)
    else None
  }

  /**
   What has to hold for the recorded taint to give the same text: the marker only at the
   start of a taint, and no forced-run taint left over from a file since removed.
   */
  predicate TaintKept(own: Option<string>, file: string) {
    if file != "" then Contains(file, NOSTAMP) ==> StartsWith(file, NOSTAMP)
    else own.None? || own.value == "" || StartsWith(own.value, NOSTAMP)
  }

  lemma StartIsContained(s: string, part: string)
    ensures StartsWith(s, part) ==> Contains(s, part)
  {
  }

  /** Recomputing from the dump gives the same text exactly when the taint was kept. */
  lemma TaintAgreement(prior: Option<string>, nostamp: bool, uuid: string, file: string)
    ensures var own := PreparedTaint(prior, nostamp, uuid, file);
            DumpedTaintText(DumpedTaint(own, file)) == TaintText(own) <==> TaintKept(own, file)
  {
    var own := PreparedTaint(prior, nostamp, uuid, file);
    if own.Some? {
      StartIsContained(own.value, NOSTAMP);
      IndexOfFound(own.value, NOSTAMP);
      assert StartsWith(NOSTAMP + uuid, NOSTAMP);
    }
  }

  /** A taint file with the marker inside it: the recomputation cuts off its beginning, not the marker. */
  lemma TaintLost()
    ensures var own := PreparedTaint(None, false, "", "re-nostamp:1");
            TaintText(own) == "re-nostamp:1" && DumpedTaintText(DumpedTaint(own, "re-nostamp:1")) == "mp:1"
  {
    var file := "re-nostamp:1";
    IndexOfFound(file, NOSTAMP);
    assert file[3..] == NOSTAMP + "1" && NOSTAMP <= file[3..];
    assert file[0] != NOSTAMP[0];
    assert file[|NOSTAMP|..] == "mp:1";
  }

  /** What the recomputation hashes, given the task's own taint and the taint file at the time of the dump. */
  function DumpedText(basehash: string, deps: seq<Tid>, unihash: Tid -> string, files: seq<Checksum>,
      own: Option<string>, file: string): string {
    basehash + DepHashes(deps, unihash) + DumpedFilesText(DumpedFiles(files)) + DumpedTaintText(DumpedTaint(own, file))
  }

  /**
   A task prepared, hashed and dumped while its dependencies' hashes and its taint file stay
   the same: the dump hashes the same text exactly when the taint was kept.
   */
  lemma RecomputationAgrees(basehash: string, deps: seq<Tid>, unihash: Tid -> string, unihash': Tid -> string,
      files: seq<Checksum>,
                            prior: Option<string>, nostamp: bool, uuid: string, file: string)
    requires forall dep :: dep in deps ==> unihash(dep) == unihash'(dep)
    ensures var own := PreparedTaint(prior, nostamp, uuid, file);
            DumpedText(basehash, deps, unihash', files, own, file) == TaskText(basehash, deps, unihash, files, own)
            <==> TaintKept(own, file)
  {
    SameHashes(deps, unihash, unihash');
    FilesTextSurvives(files);
    TaintAgreement(prior, nostamp, uuid, file);
    var own := PreparedTaint(prior, nostamp, uuid, file);
    Cancel(basehash + DepHashes(deps, unihash) + FilesText(files), TaintText(own),
        DumpedTaintText(DumpedTaint(own, file)));
  }

  lemma Cancel(p: string, a: string, b: string)
    ensures p + a == p + b <==> a == b
  {
    assert (p + a)[|p|..] == a && (p + b)[|p|..] == b;
  }

  lemma {:induction false} SameHashes(deps: seq<Tid>, unihash: Tid -> string, unihash': Tid -> string)
    requires forall dep :: dep in deps ==> unihash(dep) == unihash'(dep)
    ensures DepHashes(deps, unihash) == DepHashes(deps, unihash')
  {
    if deps != [] {
      assert forall dep :: dep in deps[..|deps| - 1] ==> dep in deps;
      SameHashes(deps[..|deps| - 1], unihash, unihash');
    }
  }

  // ---------- the generator ----------

  ghost predicate KnownIn(task: Var, deps: seq<Var>, gendeps: map<Var, set<Var>>, lookup: map<Var, Option<string>>,
      ignored: set<Var>) {
    task in lookup && forall v :: v in deps ==> v in gendeps && v in lookup && v !in ignored
  }

  lemma HashedIsKnown(d: Datastore, ignored: set<Var>, lookup: map<Var, Option<string>>, hash: string -> string,
                      task: Var, deps: seq<Var>, basehash: string, gendeps: map<Var, set<Var>>)
    requires HashedAs(d, ignored, lookup, hash, task, deps, basehash)
    requires lookup.Keys == gendeps.Keys
    ensures KnownIn(task, deps, gendeps, lookup, ignored)
    ensures basehash == hash(BaseText(lookup, task, deps))
    ensures forall v :: v in deps <==> Reaches(d, ignored, task, v)
  {
    forall v | v in deps ensures v !in ignored {
      ReachedIsNotIgnored(d, ignored, task, v);
    }
  }

  /** The tables of all recipes. */
  datatype Tables = Tables(
    basehash: map<Tid, string>, taskdeps: map<Fn, map<Var, seq<Var>>>,
    gendeps: map<Fn, map<Var, set<Var>>>, lookupcache: map<Fn, map<Var, Option<string>>>)

  /** They hold what the datastore says of the recipe: each task's list, values and base hash. */
  ghost predicate BuiltIn(t: Tables, hash: string -> string, ignored: set<Var>, fn: Fn, d: Datastore) {
    && fn in t.taskdeps && fn in t.gendeps && fn in t.lookupcache
    && forall task :: task in d.tasklist ==> BuiltTask(t, hash, ignored, fn, d, task)
  }

  ghost predicate BuiltTask(t: Tables, hash: string -> string, ignored: set<Var>, fn: Fn, d: Datastore, task: Var)
    requires fn in t.taskdeps && fn in t.gendeps && fn in t.lookupcache
  {
    && task in t.taskdeps[fn] && KnownIn(task, t.taskdeps[fn][task], t.gendeps[fn], t.lookupcache[fn], ignored)
    && fn + ":" + task in t.basehash &&
       t.basehash[fn + ":" + task] == hash(BaseText(t.lookupcache[fn], task, t.taskdeps[fn][task]))
    && (forall v :: v in t.taskdeps[fn][task] <==> Reaches(d, ignored, task, v))
    && (forall v :: v in t.taskdeps[fn][task] ==> t.lookupcache[fn][v] == d.value(v))
    && t.lookupcache[fn][task] == d.value(task)
  }

  /** The tables of one recipe, as generated, hold what dumping its tasks needs. */
  lemma AllKnown(t: Tables, d: Datastore, ignored: set<Var>, values: map<Var, Option<string>>, hash: string -> string,
      fn: Fn,
                 deps: map<Var, seq<Var>>, hashes: map<Tid, string>, gendeps: map<Var, set<Var>>)
    requires AllHashed(d, ignored, values, fn, hash, d.tasklist, deps, hashes) && values.Keys == gendeps.Keys
    requires forall v :: v in values ==> values[v] == d.value(v)
    ensures BuiltIn(Tables(t.basehash + hashes, t.taskdeps[fn := deps], t.gendeps[fn := gendeps],
            t.lookupcache[fn := values]), hash, ignored, fn, d)
  {
    hide HashedAs, BaseText, Reaches;
    var now := Tables(t.basehash + hashes, t.taskdeps[fn := deps], t.gendeps[fn := gendeps],
        t.lookupcache[fn := values]);
    forall task | task in d.tasklist ensures BuiltTask(now, hash, ignored, fn, d, task) {
      HashedIsKnown(d, ignored, values, hash, task, deps[task], hashes[fn + ":" + task], gendeps);
    }
  }

  /** An identifier tells its recipe, as long as task names have no colon. */
  lemma TidTellsRecipe(fn: Fn, task: Var, fn': Fn, task': Var)
    requires ':' !in task && ':' !in task'
    ensures fn + ":" + task == fn' + ":" + task' ==> fn == fn' && task == task'
  {
    var a, b := fn + ":" + task, fn' + ":" + task';
    LastColonIn(fn, task);
    LastColonIn(fn', task');
    assert a[..|fn|] == fn && b[..|fn'|] == fn' && a[|fn| + 1..] == task && b[|fn'| + 1..] == task';
  }

  lemma LastColonIn(fn: Fn, task: Var)
    requires ':' !in task
    ensures var a := fn + ":" + task; a[|fn|] == ':' && forall q :: |fn| < q < |a| ==> a[q] != ':'
  {
    var a := fn + ":" + task;
    forall q | |fn| < q < |a| ensures a[q] != ':' {
      assert a[q] == task[q - |fn| - 1];
    }
  }

  lemma StillBuilt(t: Tables, t': Tables, hash: string -> string, ignored: set<Var>, f: Fn, e: Datastore, fn: Fn,
      d: Datastore)
    requires BuiltIn(t, hash, ignored, f, e) && f != fn
    requires forall task :: task in d.tasklist || task in e.tasklist ==> ':' !in task
    requires fn in t'.taskdeps && t'.taskdeps == t.taskdeps[fn := t'.taskdeps[fn]]
    requires fn in t'.gendeps && t'.gendeps == t.gendeps[fn := t'.gendeps[fn]]
    requires fn in t'.lookupcache && t'.lookupcache == t.lookupcache[fn := t'.lookupcache[fn]]
    requires t'.basehash.Keys == t.basehash.Keys + Tids(fn, Elems(d.tasklist))
    requires forall tid :: tid in t.basehash && tid !in Tids(fn, Elems(d.tasklist)) ==>
             t'.basehash[tid] == t.basehash[tid]
    ensures BuiltIn(t', hash, ignored, f, e)
  {
    hide KnownIn, BaseText, Reaches;
    forall task | task in e.tasklist ensures BuiltTask(t', hash, ignored, f, e, task) {
      assert BuiltTask(t, hash, ignored, f, e, task);
      forall o | o in d.tasklist ensures fn + ":" + o != f + ":" + task {
        TidTellsRecipe(fn, o, f, task);
      }
    }
  }

  class SignatureGenerator {
    const hash: string -> string
    const ignored: set<Var>
    var basehash: map<Tid, string>
    var taskhash: map<Tid, string>
    var taskdeps: map<Fn, map<Var, seq<Var>>>
    var gendeps: map<Fn, map<Var, set<Var>>>
    var lookupcache: map<Fn, map<Var, Option<string>>>
    var runtaskdeps: map<Tid, seq<Tid>>
    var fileChecksumValues: map<Tid, seq<Checksum>>
    var taints: map<Tid, string>

    constructor (hash: string -> string, ignored: set<Var>)
      ensures this.hash == hash && this.ignored == ignored
      ensures basehash == map[] && taskhash == map[] && taints == map[]
      ensures taskdeps == map[] && gendeps == map[] && lookupcache == map[]
      ensures runtaskdeps == map[] && fileChecksumValues == map[]
    {
      this.hash, this.ignored := hash, ignored;
      basehash, taskhash, taints := map[], map[], map[];
      taskdeps, gendeps, lookupcache := map[], map[], map[];
      runtaskdeps, fileChecksumValues := map[], map[];
    }

    function TidOf(fn: Fn, task: Var): Tid {
      fn + ":" + task
    }

    /** The tables hold all that dumping the task needs. */
    ghost predicate Known(fn: Fn, task: Var)
      reads this`taskdeps, this`gendeps, this`lookupcache
    {
      && fn in taskdeps && fn in gendeps && fn in lookupcache
      && task in taskdeps[fn] && KnownIn(task, taskdeps[fn][task], gendeps[fn], lookupcache[fn], ignored)
    }

    ghost function BaseTextOf(fn: Fn, task: Var): string
      requires Known(fn, task)
      reads this`taskdeps, this`gendeps, this`lookupcache
    {
      BaseText(lookupcache[fn], task, taskdeps[fn][task])
    }

    ghost function Now(): Tables
      reads this`basehash, this`taskdeps, this`gendeps, this`lookupcache
    {
      Tables(basehash, taskdeps, gendeps, lookupcache)
    }

    ghost predicate Built(fn: Fn, d: Datastore)
      reads this`basehash, this`taskdeps, this`gendeps, this`lookupcache
    {
      BuiltIn(Now(), hash, ignored, fn, d)
    }

    lemma BuiltIsKnown(fn: Fn, d: Datastore, task: Var)
      requires Built(fn, d) && task in d.tasklist
      ensures Known(fn, task) && TidOf(fn, task) in basehash && basehash[TidOf(fn, task)] == hash(BaseTextOf(fn, task))
      ensures forall v :: v in taskdeps[fn][task] <==> Reaches(d, ignored, task, v)
      ensures lookupcache[fn][task] == d.value(task) &&
              forall v :: v in taskdeps[fn][task] ==> lookupcache[fn][v] == d.value(v)
    {
      hide Reaches, BaseText;
      assert BuiltTask(Now(), hash, ignored, fn, d, task);
    }

    /** Dependencies and base hashes of all tasks of one recipe; the tables of the others stay. */
    method BuildData(fn: Fn, d: Datastore, ghost u: set<Var>)
      requires Universe(d, u)
      modifies this`basehash, this`taskdeps, this`gendeps, this`lookupcache
      ensures Built(fn, d)
      ensures fn in taskdeps && taskdeps == old(taskdeps)[fn := taskdeps[fn]]
      ensures fn in gendeps && gendeps == old(gendeps)[fn := gendeps[fn]]
      ensures fn in lookupcache && lookupcache == old(lookupcache)[fn := lookupcache[fn]]
      ensures basehash.Keys == old(basehash).Keys + Tids(fn, Elems(d.tasklist))
      ensures forall tid :: tid in old(basehash) && tid !in Tids(fn, Elems(d.tasklist)) ==>
              basehash[tid] == old(basehash)[tid]
    {
      hide Reaches, Complete, Next, Tids, BuiltIn;
      ghost var was := Now();
      var deps, values := GenerateDependencies(d, ignored, u);
      var newdeps, newhash, pruned := GenerateDependencyHash(d, ignored, deps, values, fn, hash);
      basehash := basehash + newhash;
      taskdeps := taskdeps[fn := newdeps];
      gendeps := gendeps[fn := pruned];
      lookupcache := lookupcache[fn := values];
      AllKnown(was, d, ignored, values, hash, fn, newdeps, newhash, pruned);
    }

    /** As long as no task name has a colon, building more recipes leaves those built before as they are. */
    method BuildAll(recipes: seq<(Fn, Datastore)>, ghost us: seq<set<Var>>)
      requires |us| == |recipes| && forall i :: 0 <= i < |recipes| ==> Universe(recipes[i].1, us[i])
      requires forall i, j :: 0 <= i < j < |recipes| ==> recipes[i].0 != recipes[j].0
      requires forall i, task :: 0 <= i < |recipes| && task in recipes[i].1.tasklist ==> ':' !in task
      modifies this`basehash, this`taskdeps, this`gendeps, this`lookupcache
      ensures forall i :: 0 <= i < |recipes| ==> Built(recipes[i].0, recipes[i].1)
    {
      hide BuiltIn, Tids, Universe;
      for i := 0 to |recipes|
        invariant forall j :: 0 <= j < i ==> Built(recipes[j].0, recipes[j].1)
      {
        var (fn, d) := recipes[i];
        ghost var was := Now();
        BuildData(fn, d, us[i]);
        forall j | 0 <= j < i ensures BuiltIn(Now(), hash, ignored, recipes[j].0, recipes[j].1) {
          StillBuilt(was, Now(), hash, ignored, recipes[j].0, recipes[j].1, fn, d);
        }
      }
    }

    method RecordDeps(tid: Tid, deps: seq<Tid>)
      modifies this`runtaskdeps
      ensures runtaskdeps == old(runtaskdeps)[tid := deps]
    {
      runtaskdeps := runtaskdeps[tid := []];
      for i := 0 to |deps|
        invariant runtaskdeps == old(runtaskdeps)[tid := deps[..i]]
      {
        runtaskdeps := runtaskdeps[tid := runtaskdeps[tid] + [deps[i]]];
        assert deps[..i + 1] == deps[..i] + [deps[i]];
      }
      assert deps[..|deps|] == deps;
    }

    method RecordChecksums(tid: Tid, checksums: seq<Checksum>)
      modifies this`fileChecksumValues
      ensures fileChecksumValues == old(fileChecksumValues)[tid := checksums]
    {
      fileChecksumValues := fileChecksumValues[tid := []];
      for i := 0 to |checksums|
        invariant fileChecksumValues == old(fileChecksumValues)[tid := checksums[..i]]
      {
        fileChecksumValues := fileChecksumValues[tid := fileChecksumValues[tid] + [checksums[i]]];
        assert checksums[..i + 1] == checksums[..i] + [checksums[i]];
      }
      assert checksums[..|checksums|] == checksums;
    }

    /** Record what the task's hash will be made of. deps are already sorted and filtered. */
    method PrepTaskhash(tid: Tid, base: string, deps: seq<Tid>, checksums: seq<Checksum>, nostamp: bool, uuid: string,
        taintFile: Option<string>)
      requires forall dep :: dep in deps ==> dep in taskhash
      modifies this`basehash, this`runtaskdeps, this`fileChecksumValues, this`taints
      ensures basehash == old(basehash)[tid := base]
      ensures runtaskdeps == old(runtaskdeps)[tid := deps]
      ensures fileChecksumValues == old(fileChecksumValues)[tid := checksums]
      ensures Get(taints, tid) == PreparedTaint(Get(old(taints), tid), nostamp, uuid, taintFile.GetOr(""))
      ensures forall t :: t != tid ==> Get(taints, t) == Get(old(taints), t)
    {
      basehash := basehash[tid := base];
      RecordDeps(tid, deps);
      RecordChecksums(tid, checksums);
      if nostamp && !(tid in taints && StartsWith(taints[tid], NOSTAMP)) {
        taints := taints[tid := NOSTAMP + uuid];
      }
      if taintFile.GetOr("") != "" {
        taints := taints[tid := taintFile.value];
      }
    }

    static method AddHashes(data0: string, deps: seq<Tid>, unihash: Tid -> string) returns (data: string)
      ensures data == data0 + DepHashes(deps, unihash)
    {
      data := data0;
      for i := 0 to |deps|
        invariant data == data0 + DepHashes(deps[..i], unihash)
      {
        data := data + unihash(deps[i]);
        assert deps[..i + 1][..i] == deps[..i];
      }
      assert deps[..|deps|] == deps;
    }

    static method AddFile(data0: string, c: Checksum) returns (data: string)
      ensures data == data0 + FileText(c)
    {
      hide IndexOf, SecondPiece;
      data := data0;
      var (f, cs) := c;
      if cs.GetOr("") != "" {
        if Contains(f, "/./") {
          data := data + ("./" + SecondPiece(f, "/./"));
        }
        data := data + cs.value;
      } else {
        assert data + "" == data;
      }
    }

    static method AddFiles(data0: string, files: seq<Checksum>) returns (data: string)
      ensures data == data0 + FilesText(files)
    {
      hide FileText;
      data := data0;
      for i := 0 to |files|
        invariant data == data0 + FilesText(files[..i])
      {
        data := AddFile(data, files[i]);
        assert files[..i + 1][..i] == files[..i];
      }
      assert files[..|files|] == files;
    }

    /** The task's hash; unihash is what the dependencies hash to at this moment. */
    method GetTaskhash(tid: Tid, unihash: Tid -> string) returns (h: string)
      requires tid in basehash && tid in runtaskdeps && tid in fileChecksumValues
      modifies this`taskhash
      ensures h == hash(TaskText(basehash[tid], runtaskdeps[tid], unihash, fileChecksumValues[tid], Get(taints, tid)))
      ensures taskhash == old(taskhash)[tid := h]
    {
      hide DepHashes, FilesText;
      var data := AddHashes(basehash[tid], runtaskdeps[tid], unihash);
      data := AddFiles(data, fileChecksumValues[tid]);
      if tid in taints {
        if StartsWith(taints[tid], NOSTAMP) {
          data := data + taints[tid][|NOSTAMP|..];
        } else {
          data := data + taints[tid];
        }
      } else {
        assert data + "" == data;
      }
      h := hash(data);
      taskhash := taskhash[tid := h];
    }

    /**
     The data written for later comparison, and whether recomputing the hashes from it gives
     something else. At run time the taint file and the dependencies' hashes are read again.
     */
    method DumpSigtask(fn: Fn, task: Var, runtime: bool, unihash: Tid -> string, taintFile: Option<string>)
      returns (data: SigData, baseMismatch: bool, taskMismatch: bool)
      requires Known(fn, task) && TidOf(fn, task) in basehash
      requires runtime && TidOf(fn, task) in taskhash ==>
               TidOf(fn, task) in runtaskdeps && TidOf(fn, task) in fileChecksumValues
      ensures data.task == task && data.taskdeps == taskdeps[fn][task] && data.basehash == basehash[TidOf(fn, task)]
      ensures data.varvals == VarsOf(fn, task) && data.gendeps == DepsOf(fn, task)
      ensures data.runtime == if runtime && TidOf(fn, task) in taskhash then Some(RuntimeOf(TidOf(fn, task), unihash))
              else None
      ensures data.taint == DumpedTaint(if runtime then Get(taints, TidOf(fn, task)) else None, taintFile.GetOr(""))
      ensures baseMismatch <==> basehash[TidOf(fn, task)] != hash(BaseTextOf(fn, task))
      ensures taskMismatch ==> runtime && TidOf(fn, task) in taskhash
      ensures runtime && TidOf(fn, task) in taskhash ==>
                (taskMismatch <==> taskhash[TidOf(fn, task)] != hash(DumpedTaskText(TidOf(fn, task), unihash,
                    taintFile.GetOr(""))))
    {
      var tid := TidOf(fn, task);
      var deps := taskdeps[fn][task];
      var kept, varvals := DumpVars(fn, task);
      var rt := None;
      if runtime && tid in taskhash {
        var files := ShortenPaths(fileChecksumValues[tid]);
        var hashes := ReadHashes(runtaskdeps[tid], unihash);
        rt := Some(RuntimeData(runtaskdeps[tid], files, hashes, taskhash[tid]));
      }
      var taint := if taintFile.GetOr("") != "" then taintFile else None;
      if runtime && tid in taints && Contains(taints[tid], NOSTAMP) {
        taint := Some(taints[tid]);
      }
      data := SigData(task, deps, basehash[tid], kept, varvals, rt, taint);
      var computed := CalcBasehash(data);
      SameText(varvals, lookupcache[fn], task, deps);
      baseMismatch := computed != basehash[tid];
      taskMismatch := false;
      if rt.Some? {
        computed := CalcTaskhash(data, unihash);
        taskMismatch := computed != taskhash[tid];
      }
    }

    /**
     A task is prepared, hashed and dumped in turn, as for every task that is run: with the
     same dependency hashes and taint file throughout, neither hash is found to differ, as long
     as the taint was kept.
     */
    method PrepareHashAndDump(fn: Fn, task: Var, deps: seq<Tid>, checksums: seq<Checksum>, nostamp: bool, uuid: string,
                              unihash: Tid -> string, unihash': Tid -> string, taintFile: Option<string>)
      returns (data: SigData, baseMismatch: bool, taskMismatch: bool)
      requires Known(fn, task) && TidOf(fn, task) in basehash && basehash[TidOf(fn, task)] == hash(BaseTextOf(fn, task))
      requires forall dep :: dep in deps ==> dep in taskhash && unihash(dep) == unihash'(dep)
      modifies this`basehash, this`runtaskdeps, this`fileChecksumValues, this`taints, this`taskhash
      ensures !baseMismatch
      ensures var file := taintFile.GetOr("");
              TaintKept(PreparedTaint(Get(old(taints), TidOf(fn, task)), nostamp, uuid, file), file) ==> !taskMismatch
    {
      hide TaskText, DumpedText, BaseText, PreparedTaint, TaintKept, KnownIn;
      var tid := TidOf(fn, task);
      PrepTaskhash(tid, basehash[tid], deps, checksums, nostamp, uuid, taintFile);
      var h := GetTaskhash(tid, unihash);
      RecomputationAgrees(basehash[tid], deps, unihash, unihash', checksums, Get(old(taints), tid), nostamp, uuid,
          taintFile.GetOr(""));
      data, baseMismatch, taskMismatch := DumpSigtask(fn, task, true, unihash', taintFile);
    }

    /** What is dumped at run time: the inputs of the task hash as they are now, with shortened paths. */
    ghost function RuntimeOf(tid: Tid, unihash: Tid -> string): RuntimeData
      requires tid in taskhash && tid in runtaskdeps && tid in fileChecksumValues
      reads this`taskhash, this`runtaskdeps, this`fileChecksumValues
    {
      RuntimeData(runtaskdeps[tid], DumpedFiles(fileChecksumValues[tid]), map dep | dep in runtaskdeps[tid] ::
          unihash(dep), taskhash[tid])
    }

    /** The text the recomputation hashes. */
    ghost function DumpedTaskText(tid: Tid, unihash: Tid -> string, file: string): string
      requires tid in basehash && tid in runtaskdeps && tid in fileChecksumValues
      reads this`basehash, this`runtaskdeps, this`fileChecksumValues, this`taints
    {
      DumpedText(basehash[tid], runtaskdeps[tid], unihash, fileChecksumValues[tid], Get(taints, tid), file)
    }

    /** The values of the task and of all it depends on. */
    ghost function VarsOf(fn: Fn, task: Var): map<Var, Option<string>>
      requires Known(fn, task)
      reads this`taskdeps, this`gendeps, this`lookupcache
    {
      map v | v in {task} + Elems(taskdeps[fn][task]) :: lookupcache[fn][v]
    }

    ghost function DepsOf(fn: Fn, task: Var): map<Var, set<Var>>
      requires Known(fn, task)
      reads this`taskdeps, this`gendeps, this`lookupcache
    {
      map v | v in Elems(taskdeps[fn][task]) :: gendeps[fn][v]
    }

    method DumpVars(fn: Fn, task: Var) returns (kept: map<Var, set<Var>>, varvals: map<Var, Option<string>>)
      requires Known(fn, task)
      ensures varvals == VarsOf(fn, task) && kept == DepsOf(fn, task)
    {
      var deps := taskdeps[fn][task];
      kept, varvals := map[], map[task := lookupcache[fn][task]];
      for i := 0 to |deps|
        invariant varvals == map v | v in {task} + Elems(deps[..i]) :: lookupcache[fn][v]
        invariant kept == map v | v in Elems(deps[..i]) :: gendeps[fn][v]
      {
        assert deps[..i + 1] == deps[..i] + [deps[i]];
        var dep := deps[i];
        if dep in ignored {
          continue;
        }
        kept := kept[dep := gendeps[fn][dep]];
        varvals := varvals[dep := lookupcache[fn][dep]];
      }
      assert deps[..|deps|] == deps;
    }

    static method ShortenPaths(cs: seq<Checksum>) returns (r: seq<Checksum>)
      ensures r == DumpedFiles(cs)
    {
      r := [];
      for i := 0 to |cs|
        invariant r == DumpedFiles(cs[..i])
      {
        var (f, sum) := cs[i];
        if Contains(f, "/./") {
          r := r + [("./" + SecondPiece(f, "/./"), sum)];
        } else {
          r := r + [(Basename(f), sum)];
        }
        assert DumpedFiles(cs[..i + 1]) == DumpedFiles(cs[..i]) + [DumpedFile(cs[i])];
      }
      assert cs[..|cs|] == cs;
    }

    static method ReadHashes(deps: seq<Tid>, unihash: Tid -> string) returns (r: map<Tid, string>)
      ensures r == map dep | dep in deps :: unihash(dep)
    {
      r := map[];
      for i := 0 to |deps|
        invariant r == map dep | dep in deps[..i] :: unihash(dep)
      {
        r := r[deps[i] := unihash(deps[i])];
        assert deps[..i + 1] == deps[..i] + [deps[i]];
      }
      assert deps[..|deps|] == deps;
    }

    method CalcBasehash(data: SigData) returns (h: string)
      requires data.task in data.varvals && forall v :: v in data.taskdeps ==> v in data.varvals
      ensures h == hash(BaseText(data.varvals, data.task, data.taskdeps))
    {
      var basedata := data.varvals[data.task].GetOr("");
      var deps := data.taskdeps;
      for i := 0 to |deps|
        invariant forall v :: v in deps[..i] ==> v in data.varvals
        invariant basedata == BaseText(data.varvals, data.task, deps[..i])
      {
        var dep := deps[i];
        ghost var was := basedata;
        basedata := basedata + dep;
        if data.varvals[dep].Some? {
          basedata := basedata + data.varvals[dep].value;
        }
        assert basedata == was + DepText(data.varvals, dep);
        assert deps[..i + 1][..i] == deps[..i];
      }
      assert deps[..|deps|] == deps;
      h := hash(basedata);
    }

    /** unihash is any function that agrees with the recorded hashes. */
    method CalcTaskhash(data: SigData, ghost unihash: Tid -> string) returns (h: string)
      requires data.runtime.Some?
      requires forall dep :: dep in data.runtime.value.runtaskdeps ==>
                 dep in data.runtime.value.runtaskhashes && data.runtime.value.runtaskhashes[dep] == unihash(dep)
      ensures h == hash(data.basehash + DepHashes(data.runtime.value.runtaskdeps, unihash)
                        + DumpedFilesText(data.runtime.value.fileChecksums) + DumpedTaintText(data.taint))
    {
      var rt := data.runtime.value;
      RecordedAre(rt.runtaskdeps, rt.runtaskhashes, unihash);
      var text := AddRecordedHashes(data.basehash, rt.runtaskdeps, rt.runtaskhashes);
      text := AddDumpedFiles(text, rt.fileChecksums);
      if data.taint.Some? {
        if Contains(data.taint.value, NOSTAMP) {
          IndexOfFound(data.taint.value, NOSTAMP);
          text := text + data.taint.value[|NOSTAMP|..];
        } else {
          text := text + data.taint.value;
        }
      } else {
        assert text + "" == text;
      }
      h := hash(text);
    }

    static method AddRecordedHashes(data0: string, deps: seq<Tid>, hashes: map<Tid, string>) returns (data: string)
      requires forall dep :: dep in deps ==> dep in hashes
      ensures data == data0 + RecordedHashes(deps, hashes)
    {
      data := data0;
      for i := 0 to |deps|
        invariant forall dep :: dep in deps[..i] ==> dep in hashes
        invariant data == data0 + RecordedHashes(deps[..i], hashes)
      {
        data := data + hashes[deps[i]];
        assert deps[..i + 1][..i] == deps[..i];
      }
      assert deps[..|deps|] == deps;
    }

    static method AddDumpedFiles(data0: string, files: seq<Checksum>) returns (data: string)
      ensures data == data0 + DumpedFilesText(files)
    {
      hide DumpedFileText;
      data := data0;
      for i := 0 to |files|
        invariant data == data0 + DumpedFilesText(files[..i])
      {
        data := AddDumpedFile(data, files[i]);
        assert files[..i + 1][..i] == files[..i];
      }
      assert files[..|files|] == files;
    }

    static method AddDumpedFile(data0: string, c: Checksum) returns (data: string)
      ensures data == data0 + DumpedFileText(c)
    {
      hide IndexOf;
      data := data0;
      if c.1.GetOr("") != "" {
        if Contains(c.0, "./") {
          data := data + c.0;
        }
        data := data + c.1.value;
      } else {
        assert data + "" == data;
      }
    }
  }

  function RecordedHashes(deps: seq<Tid>, hashes: map<Tid, string>): string
    requires forall dep :: dep in deps ==> dep in hashes
  {
    if deps == [] then "" else RecordedHashes(deps[..|deps| - 1], hashes) + hashes[deps[|deps| - 1]]
  }

  lemma {:induction false} RecordedAre(deps: seq<Tid>, hashes: map<Tid, string>, unihash: Tid -> string)
    requires forall dep :: dep in deps ==> dep in hashes && hashes[dep] == unihash(dep)
    ensures RecordedHashes(deps, hashes) == DepHashes(deps, unihash)
  {
    if deps != [] {
      assert forall dep :: dep in deps[..|deps| - 1] ==> dep in deps;
      RecordedAre(deps[..|deps| - 1], hashes, unihash);
    }
  }

  function Get(m: map<Tid, string>, tid: Tid): Option<string> {
    if tid in m then Some(m[tid]) else None
  }
}
