/**
 Parallel parsing: worker processes that parse their share of the recipes, a result queue
 with a feeder thread in each worker, and one consumer that counts. Any step of any party
 may come next; workers may also be killed.
 */
module ParseProtocol {
  import opened Collections

  type Job = string

  datatype Result = Parsed(job: Job) | Failed(job: Job)

  /**
   running: inside the loop; not running: the results queue has been closed and is being
   joined. hand is the result between parse (or pending.pop) and put; buffer is what put
   accepted and the feeder thread has not yet written to the pipe.
   */
  datatype Worker = Worker(jobs: seq<Job>, hand: Option<Result>, pending: seq<Result>, buffer: seq<Result>,
      running: bool, alive: bool, killed: bool)

  /** Where the consumer stands: reading the cache, at the loop test, about to wait for a result, or done. */
  datatype Place = Caching | AtTop | Waiting | Ended(ok: bool)

  datatype State = State(
    workers: seq<Worker>, quits: nat, queue: seq<Result>, lost: seq<Job>,
    place: Place, cachedLeft: nat, procs: set<nat>, empty: bool,
    parsed: nat, cached: nat, current: nat, error: nat, delivered: seq<Result>)

  // ---------- splitting the work ----------

  /** `lst[i::n]` */
  function Stride<T>(s: seq<T>, i: nat, n: nat): seq<T>
    requires n > 0
    decreases |s| - i
  {
    if i >= |s| then [] else [s[i]] + Stride(s, i + n, n)
  }

  function Chunkify<T>(s: seq<T>, n: nat): (chunks: seq<seq<T>>)
    requires n > 0
    ensures |chunks| == n
  {
    seq(n, i requires 0 <= i < n => Stride(s, i, n))
  }

  /** How often a job occurs in a list. */
  function Count<T(==)>(s: seq<T>, x: T): nat {
    multiset(s)[x]
  }

  lemma CountPlus<T>(a: seq<T>, b: seq<T>, x: T)
    ensures Count(a + b, x) == Count(a, x) + Count(b, x)
  {
  }

  lemma CountNone<T>(x: T)
    ensures Count([], x) == 0
  {
  }

  function Total<T(==)>(chunks: seq<seq<T>>, x: T): nat {
    if chunks == [] then 0 else Count(chunks[0], x) + Total(chunks[1..], x)
  }

  lemma {:induction false} StrideShift<T>(x: T, t: seq<T>, i: nat, n: nat)
    requires n > 0
    ensures Stride([x] + t, i + 1, n) == Stride(t, i, n)
    decreases |t| - i
  {
    var s, i' := [x] + t, i + 1;
    StrideStep(t, i, n);
    StrideStep(s, i', n);
    hide Stride;
    assert |s| == |t| + 1;
    if i < |t| {
      StrideShift(x, t, i + n, n);
      assert i + n + 1 == i' + n;
      assert s[i'] == t[i];
    }
  }

  lemma StrideStep<T>(s: seq<T>, i: nat, n: nat)
    requires n > 0
    ensures Stride(s, i, n) == if i >= |s| then [] else [s[i]] + Stride(s, i + n, n)
  {
  }

  lemma {:induction false} TotalPush<T>(a: seq<seq<T>>, b: seq<T>, x: T)
    ensures Total(a + [b], x) == Total(a, x) + Count(b, x)
  {
    hide Count;
    if a == [] {
      assert a + [b] == [b];
    } else {
      assert (a + [b])[1..] == a[1..] + [b];
      TotalPush(a[1..], b, x);
    }
  }

  /** Every job goes to exactly one worker. */
  lemma {:induction false} ChunkifyPartitions<T>(s: seq<T>, n: nat, x: T)
    requires n > 0
    ensures Total(Chunkify(s, n), x) == Count(s, x)
  {
    hide Count;
    var chunks := Chunkify(s, n);
    CountNone(x);
    if s == [] {
      AllEmpty(chunks, x);
    } else {
      var y, t := s[0], s[1..];
      assert s == [y] + t;
      var rest := Chunkify(t, n);
      ChunkifyPartitions(t, n, x);
      StrideShift(y, t, n - 1, n);
      assert chunks[0] == [y] + rest[n - 1];
      forall i | 0 <= i < n - 1 ensures chunks[1..][i] == rest[..n - 1][i] {
        StrideShift(y, t, i, n);
      }
      assert chunks[1..] == rest[..n - 1];
      assert rest == rest[..n - 1] + [rest[n - 1]];
      TotalPush(rest[..n - 1], rest[n - 1], x);
      CountPlus([y], rest[n - 1], x);
      CountPlus([y], t, x);
    }
  }

  lemma {:induction false} AllEmpty<T>(chunks: seq<seq<T>>, x: T)
    requires forall i :: 0 <= i < |chunks| ==> chunks[i] == []
    ensures Total(chunks, x) == 0
  {
    if chunks != [] {
      AllEmpty(chunks[1..], x);
    }
  }

  // ---------- what is where ----------

  function JobsOf(rs: seq<Result>): seq<Job> {
    seq(|rs|, i requires 0 <= i < |rs| => rs[i].job)
  }

  function InHand(hand: Option<Result>): seq<Job> {
    if hand.Some? then [hand.value.job] else []
  }

  /** Everything a worker holds. */
  function Contents(w: Worker): seq<Job> {
    w.jobs + InHand(w.hand) + JobsOf(w.pending) + JobsOf(w.buffer)
  }

  function Held(ws: seq<Worker>, j: Job): nat {
    if ws == [] then 0 else Count(Contents(ws[0]), j) + Held(ws[1..], j)
  }

  lemma {:induction false} HeldUpdate(ws: seq<Worker>, i: nat, w: Worker, j: Job)
    requires i < |ws|
    ensures Held(ws[i := w], j) + Count(Contents(ws[i]), j) == Held(ws, j) + Count(Contents(w), j)
  {
    hide Count, Contents;
    if i == 0 {
      assert ws[0 := w][1..] == ws[1..];
    } else {
      assert ws[i := w][1..] == ws[1..][i - 1 := w];
      HeldUpdate(ws[1..], i - 1, w, j);
    }
  }

  lemma ContentsCount(w: Worker, j: Job)
    ensures Count(Contents(w), j) ==
            Count(w.jobs, j) + Count(InHand(w.hand), j) + Count(JobsOf(w.pending), j) + Count(JobsOf(w.buffer), j)
  {
    hide Count;
    CountPlus(w.jobs, InHand(w.hand), j);
    CountPlus(w.jobs + InHand(w.hand), JobsOf(w.pending), j);
    CountPlus(w.jobs + InHand(w.hand) + JobsOf(w.pending), JobsOf(w.buffer), j);
  }

  lemma PushCount(rs: seq<Result>, r: Result, j: Job)
    ensures Count(JobsOf(rs + [r]), j) == Count(JobsOf(rs), j) + Count([r.job], j)
  {
    hide Count;
    assert JobsOf(rs + [r]) == JobsOf(rs) + [r.job];
    CountPlus(JobsOf(rs), [r.job], j);
  }

  lemma PopCount(rs: seq<Result>, j: Job)
    requires rs != []
    ensures Count(JobsOf(rs), j) == Count(JobsOf(rs[1..]), j) + Count([rs[0].job], j)
  {
    hide Count;
    assert JobsOf(rs) == [rs[0].job] + JobsOf(rs[1..]);
    CountPlus([rs[0].job], JobsOf(rs[1..]), j);
  }

  lemma PopLastCount(rs: seq<Result>, j: Job)
    requires rs != []
    ensures Count(JobsOf(rs), j) == Count(JobsOf(rs[..|rs| - 1]), j) + Count([rs[|rs| - 1].job], j)
  {
    hide Count;
    assert rs == rs[..|rs| - 1] + [rs[|rs| - 1]];
    PushCount(rs[..|rs| - 1], rs[|rs| - 1], j);
  }

  // ---------- steps ----------

  /** The start: threads is what BB_NUMBER_PARSE_THREADS or the processor count says. */
  ghost predicate Init(s: State, willparse: seq<Job>, fromcache: nat, threads: nat) {
    var n := if threads < |willparse| then threads else |willparse|;
    && (n > 0 ==>
       s.workers == seq(n,
       i requires 0 <= i < n => Worker(Stride(willparse, i, n), None, [], [], true, true, false)))
    && (n == 0 ==> s.workers == [])
    && s.quits == 0 && s.queue == [] && s.lost == []
    && s.place == Caching && s.cachedLeft == fromcache && (forall i: nat :: i in s.procs <==> i < |s.workers|) &&
       !s.empty
    && s.parsed == 0 && s.cached == 0 && s.current == 0 && s.error == 0 && s.delivered == []
  }

  /** One step of worker w inside its own process; queue and quits are shared. */
  ghost predicate WorkerStep(w: Worker, w': Worker, queue: seq<Result>, queue': seq<Result>, quits: nat, quits': nat) {
    && w.alive
    && (|| (&& w.running && w.hand.None? && quits > 0                                    // told to quit
            && w' == w.(running := false) && queue' == queue && quits' == quits - 1)
        || (&& w.running && w.hand.None? && w.pending != []                              // take up the postponed result
            && w' == w.(hand := Some(w.pending[|w.pending| - 1]), pending := w.pending[..|w.pending| - 1])
            && queue' == queue && quits' == quits)
        || (&& w.running && w.hand.None? && w.pending == [] && w.jobs != []               // parse the next job
            && (w'.hand == Some(Parsed(w.jobs[|w.jobs| - 1])) || w'.hand == Some(Failed(w.jobs[|w.jobs| - 1])))
            && w' == w.(hand := w'.hand, jobs := w.jobs[..|w.jobs| - 1])
            && queue' == queue && quits' == quits)
        || (&& w.running && w.hand.None? && w.pending == [] && w.jobs == []               // nothing left
            && w' == w.(running := false) && queue' == queue && quits' == quits)
        || (&& w.running && w.hand.Some?                                                  // put succeeds
            && w' == w.(hand := None, buffer := w.buffer + [w.hand.value]) && queue' == queue && quits' == quits)
        || (&& w.running && w.hand.Some?                                                  // put times out
            && w' == w.(hand := None, pending := w.pending + [w.hand.value]) && queue' == queue && quits' == quits)
        || (&& w.buffer != []                                                             // the feeder thread writes
            && w' == w.(buffer := w.buffer[1..]) && queue' == queue + [w.buffer[0]] && quits' == quits)
        || (&& !w.running && w.buffer == []                                               // joined: the process exits
            && w' == w.(alive := false) && queue' == queue && quits' == quits))
  }

  ghost predicate SomeWorkerSteps(s: State, s': State) {
    exists i ::
      && 0 <= i < |s.workers| && 0 <= i < |s'.workers|
      && WorkerStep(s.workers[i], s'.workers[i], s.queue, s'.queue, s.quits, s'.quits)
      && s' == s.(workers := s.workers[i := s'.workers[i]], queue := s'.queue, quits := s'.quits)
  }

  /** The operating system ends a worker; what it held is gone. */
  ghost predicate Kill(s: State, s': State) {
    exists i :: 0 <= i < |s.workers| && s.workers[i].alive &&
      s' == s.(workers := s.workers[i := Worker([], None, [], [], false, false, true)], lost := s.lost +
          Contents(s.workers[i]))
  }

  /** parse_next on one entry that was valid in the cache. */
  ghost predicate NextCached(s: State, s': State) {
    && s.place == Caching && s.cachedLeft > 0
    && s' == s.(cachedLeft := s.cachedLeft - 1, current := s.current + 1, cached := s.cached + 1)
  }

  /** The cached entries are used up: on to the generator, or to the end when nothing was to be parsed. */
  ghost predicate CacheDone(s: State, s': State, toparse: nat) {
    && s.place == Caching && s.cachedLeft == 0
    && s' == s.(place := if toparse > 0 then AtTop else Ended(true))
  }

  /** The loop test passes; some processes seen dead are dropped; then enough may have been parsed. */
  ghost predicate Reap(s: State, s': State, toparse: nat) {
    && s.place == AtTop && (s.procs != {} || !s.empty)
    && s'.procs <= s.procs
    && (forall i :: i in s.procs - s'.procs ==> i < |s.workers| && !s.workers[i].alive)
    && s' == s.(procs := s'.procs, place := if s.parsed >= toparse then Ended(true) else Waiting)
  }

  /** The loop test fails. */
  ghost predicate LoopExit(s: State, s': State, toparse: nat) {
    && s.place == AtTop && s.procs == {} && s.empty
    && s' == if s.parsed >= toparse then s.(place := Ended(true))
             else s.(place := Ended(false), error := s.error + 1)
  }

  /** get delivers; a failed parse ends everything. */
  ghost predicate Deliver(s: State, s': State) {
    && s.place == Waiting && s.queue != []
    && (var got := s.(queue := s.queue[1..], delivered := s.delivered + [s.queue[0]], empty := false);
        s' == if s.queue[0].Failed? then got.(place := Ended(false), error := s.error + 1)
              else got.(place := AtTop, current := s.current + 1, parsed := s.parsed + 1))
  }

  /** get times out on an empty pipe. */
  ghost predicate Timeout(s: State, s': State) {
    && s.place == Waiting && s.queue == []
    && s' == s.(place := AtTop, empty := true)
  }

  /** After the end every remaining process is told to quit, and the queue is thrown away. */
  ghost predicate Shutdown(s: State, s': State) {
    && s.place.Ended?
    && (|| s' == s.(quits := s.quits + |s.procs|)
        || (s.queue != [] && s' == s.(queue := s.queue[1..], lost := s.lost + [s.queue[0].job])))
  }

  ghost predicate Step(s: State, s': State, toparse: nat) {
    || SomeWorkerSteps(s, s')
    || Kill(s, s')
    || NextCached(s, s')
    || CacheDone(s, s', toparse)
    || Reap(s, s', toparse)
    || LoopExit(s, s', toparse)
    || Deliver(s, s')
    || Timeout(s, s')
    || Shutdown(s, s')
  }

  ghost predicate Run(t: seq<State>, willparse: seq<Job>, fromcache: nat, threads: nat) {
    && t != [] && Init(t[0], willparse, fromcache, threads)
    && forall i :: 0 <= i < |t| - 1 ==> Step(t[i], t[i + 1], |willparse|)
  }

  // ---------- the invariant ----------

  /** Every job is in exactly one place. */
  ghost predicate Conserved(s: State, willparse: seq<Job>) {
    forall j :: Held(s.workers, j) + Count(JobsOf(s.queue), j) + Count(JobsOf(s.delivered), j) + Count(s.lost, j) ==
        Count(willparse, j)
  }

  /** At most one result is postponed, never while another one is in hand; an exited worker left nothing behind. */
  ghost predicate WorkerOk(w: Worker, quitting: bool) {
    && |w.pending| <= 1
    && (w.hand.Some? ==> w.pending == [] && w.running)
    && (w.killed ==> !w.alive)
    && (!w.alive ==> w.hand.None? && w.buffer == [])
    && (!w.running && !quitting ==> w.jobs == [] && w.pending == [])
    && (!w.alive ==> !w.running)
  }

  ghost predicate Counted(s: State, fromcache: nat) {
    && s.cached + s.cachedLeft == fromcache
    && s.current == s.cached + s.parsed
    && (s.place != Caching ==> s.cachedLeft == 0)
    && (s.place != Ended(false) ==>
       s.error == 0 && s.parsed == |s.delivered| && forall r :: r in s.delivered ==> r.Parsed?)
    && (s.place == Ended(false) ==> s.error == 1)
  }

  /** The consumer only forgets processes that are gone, and an empty queue after the last of them is final. */
  ghost predicate Watched(s: State) {
    && (forall i :: i in s.procs ==> i < |s.workers|)
    && (forall i :: 0 <= i < |s.workers| && i !in s.procs ==> !s.workers[i].alive)
    && (s.place == AtTop && s.procs == {} && s.empty ==> s.queue == [])
    && (!s.place.Ended? ==> s.quits == 0)
    && (s.place == Caching ==> !s.empty)
  }

  ghost predicate NobodyKilled(s: State) {
    forall i :: 0 <= i < |s.workers| ==> !s.workers[i].killed
  }

  /** No worker was killed and no recipe failed to parse. */
  ghost predicate Blameless(s: State) {
    && NobodyKilled(s)
    && (forall r :: r in s.delivered ==> r.Parsed?)
  }

  ghost predicate Inv(s: State, willparse: seq<Job>, fromcache: nat) {
    && Conserved(s, willparse)
    && (forall i :: 0 <= i < |s.workers| ==> WorkerOk(s.workers[i], s.place.Ended?))
    && Counted(s, fromcache)
    && Watched(s)
    && (NobodyKilled(s) && !s.place.Ended? ==> s.lost == [])
    && (s.place == Ended(true) ==> s.parsed >= |willparse|)
    && (s.place == Ended(false) ==> !Blameless(s))
  }

  lemma InitInv(s: State, willparse: seq<Job>, fromcache: nat, threads: nat)
    requires Init(s, willparse, fromcache, threads) && threads > 0
    ensures Inv(s, willparse, fromcache)
  {
    hide Count;
    var n := if threads < |willparse| then threads else |willparse|;
    forall j
      ensures Held(s.workers, j) + Count(JobsOf(s.queue), j) + Count(JobsOf(s.delivered), j) + Count(s.lost, j) ==
              Count(willparse, j)
    {
      CountNone(j);
      assert JobsOf(s.queue) == [] && JobsOf(s.delivered) == [];
      if n == 0 {
        assert willparse == [];
      } else {
        HeldAtStart(s.workers, Chunkify(willparse, n), j);
        ChunkifyPartitions(willparse, n, j);
      }
    }
  }

  lemma {:induction false} HeldAtStart(ws: seq<Worker>, chunks: seq<seq<Job>>, j: Job)
    requires |ws| == |chunks|
    requires forall i :: 0 <= i < |ws| ==> ws[i] == Worker(chunks[i], None, [], [], true, true, false)
    ensures Held(ws, j) == Total(chunks, j)
  {
    hide Count;
    if ws != [] {
      HeldAtStart(ws[1..], chunks[1..], j);
      assert Contents(ws[0]) == chunks[0];
    }
  }

  /** A worker's step moves at most one job, and only within the worker or to the queue. */
  lemma WorkerMoves(w: Worker, w': Worker, queue: seq<Result>, queue': seq<Result>, quits: nat, quits': nat, j: Job)
    requires WorkerStep(w, w', queue, queue', quits, quits')
    ensures Count(Contents(w'), j) + Count(JobsOf(queue'), j) == Count(Contents(w), j) + Count(JobsOf(queue), j)
  {
    hide Count, Contents;
    ContentsCount(w, j);
    ContentsCount(w', j);
    CountNone(j);
    if w.jobs != [] {
      var k := |w.jobs| - 1;
      assert w.jobs == w.jobs[..k] + [w.jobs[k]];
      CountPlus(w.jobs[..k], [w.jobs[k]], j);
    }
    if w.pending != [] {
      PopLastCount(w.pending, j);
    }
    if w.hand.Some? {
      PushCount(w.buffer, w.hand.value, j);
      PushCount(w.pending, w.hand.value, j);
    }
    if w.buffer != [] {
      PopCount(w.buffer, j);
      PushCount(queue, w.buffer[0], j);
    }
  }

  lemma WorkerStaysOk(w: Worker, w': Worker, queue: seq<Result>, queue': seq<Result>, quits: nat, quits': nat,
      quitting: bool)
    requires WorkerStep(w, w', queue, queue', quits, quits') && WorkerOk(w, quitting)
    requires !quitting ==> quits == 0
    ensures WorkerOk(w', quitting) && w'.killed == w.killed && quits' <= quits
  {
  }

  lemma WorkerConserved(s: State, s': State, willparse: seq<Job>, i: nat)
    requires Conserved(s, willparse)
    requires i < |s.workers| && i < |s'.workers|
    requires WorkerStep(s.workers[i], s'.workers[i], s.queue, s'.queue, s.quits, s'.quits)
    requires s' == s.(workers := s.workers[i := s'.workers[i]], queue := s'.queue, quits := s'.quits)
    ensures Conserved(s', willparse)
  {
    hide Count, Contents, WorkerStep;
    forall j
      ensures Held(s'.workers, j) + Count(JobsOf(s'.queue), j) + Count(JobsOf(s'.delivered), j) + Count(s'.lost, j) ==
              Count(willparse, j)
    {
      WorkerMoves(s.workers[i], s'.workers[i], s.queue, s'.queue, s.quits, s'.quits, j);
      HeldUpdate(s.workers, i, s'.workers[i], j);
    }
  }

  lemma WorkerInv(s: State, s': State, willparse: seq<Job>, fromcache: nat)
    requires Inv(s, willparse, fromcache) && SomeWorkerSteps(s, s')
    ensures Inv(s', willparse, fromcache)
  {
    hide Conserved, Counted;
    var i :| 0 <= i < |s.workers| && 0 <= i < |s'.workers|
      && WorkerStep(s.workers[i], s'.workers[i], s.queue, s'.queue, s.quits, s'.quits)
      && s' == s.(workers := s.workers[i := s'.workers[i]], queue := s'.queue, quits := s'.quits);
    var w, w' := s.workers[i], s'.workers[i];
    WorkerConserved(s, s', willparse, i);
    WorkerStaysOk(w, w', s.queue, s'.queue, s.quits, s'.quits, s.place.Ended?);
    SameCounts(s, s', fromcache);
    forall j | 0 <= j < |s'.workers|
      ensures WorkerOk(s'.workers[j], s'.place.Ended?) && s'.workers[j].killed == s.workers[j].killed
      ensures j !in s'.procs ==> !s'.workers[j].alive
    {
      assert s'.workers[j] == if j == i then w' else s.workers[j];
    }
    assert i in s.procs;
    assert Watched(s');
    assert NobodyKilled(s') <==> NobodyKilled(s);
  }

  lemma SameCounts(s: State, s': State, fromcache: nat)
    requires Counted(s, fromcache)
    requires s' == s.(workers := s'.workers, queue := s'.queue, quits := s'.quits, lost := s'.lost)
    ensures Counted(s', fromcache)
  {
  }

  lemma KillInv(s: State, s': State, willparse: seq<Job>, fromcache: nat)
    requires Inv(s, willparse, fromcache) && Kill(s, s')
    ensures Inv(s', willparse, fromcache)
  {
    hide Counted, Count, Contents;
    var i :| 0 <= i < |s.workers| && s.workers[i].alive &&
      s' == s.(workers := s.workers[i := Worker([], None, [], [], false, false, true)], lost := s.lost +
          Contents(s.workers[i]));
    var w := Worker([], None, [], [], false, false, true);
    SameCounts(s, s', fromcache);
    forall j
      ensures Held(s'.workers, j) + Count(JobsOf(s'.queue), j) + Count(JobsOf(s'.delivered), j) + Count(s'.lost, j) ==
              Count(willparse, j)
    {
      HeldUpdate(s.workers, i, w, j);
      CountPlus(s.lost, Contents(s.workers[i]), j);
      ContentsCount(w, j);
      CountNone(j);
      assert InHand(None) == [] && JobsOf([]) == [];
    }
    forall j | 0 <= j < |s'.workers|
      ensures WorkerOk(s'.workers[j], s'.place.Ended?)
      ensures j !in s'.procs ==> !s'.workers[j].alive
    {
      assert s'.workers[j] == if j == i then w else s.workers[j];
    }
    assert s'.workers[i].killed;
    assert !NobodyKilled(s');
  }

  lemma DeliverInv(s: State, s': State, willparse: seq<Job>, fromcache: nat)
    requires Inv(s, willparse, fromcache) && Deliver(s, s')
    ensures Inv(s', willparse, fromcache)
  {
    hide Count, WorkerOk;
    forall j
      ensures Held(s'.workers, j) + Count(JobsOf(s'.queue), j) + Count(JobsOf(s'.delivered), j) + Count(s'.lost, j) ==
              Count(willparse, j)
    {
      PopCount(s.queue, j);
      PushCount(s.delivered, s.queue[0], j);
    }
    QuittingIsWeaker(s);
    assert s.queue[0] in s'.delivered;
  }

  lemma QuittingIsWeaker(s: State)
    ensures forall i, q :: 0 <= i < |s.workers| && WorkerOk(s.workers[i], q) ==> WorkerOk(s.workers[i], true)
  {
  }

  /** With the queue drained and every worker gone of its own accord, everything has been delivered. */
  lemma DrainedIsComplete(s: State, willparse: seq<Job>, fromcache: nat)
    requires Inv(s, willparse, fromcache) && Blameless(s)
    requires s.place == AtTop && s.procs == {} && s.empty
    ensures s.parsed == |willparse|
  {
    forall j ensures Count(JobsOf(s.delivered), j) == Count(willparse, j) {
      forall i | 0 <= i < |s.workers| ensures Contents(s.workers[i]) == [] {
        assert i !in s.procs;
        assert WorkerOk(s.workers[i], false);
      }
      NothingHeld(s.workers, j);
      assert JobsOf(s.queue) == [];
    }
    SameSize(JobsOf(s.delivered), willparse);
  }

  lemma {:induction false} NothingHeld(ws: seq<Worker>, j: Job)
    requires forall i :: 0 <= i < |ws| ==> Contents(ws[i]) == []
    ensures Held(ws, j) == 0
  {
    if ws != [] {
      NothingHeld(ws[1..], j);
    }
  }

  lemma SameSize(a: seq<Job>, b: seq<Job>)
    requires forall j :: Count(a, j) == Count(b, j)
    ensures multiset(a) == multiset(b) && |a| == |b|
  {
    forall j: Job ensures multiset(a)[j] == multiset(b)[j] {
      assert Count(a, j) == Count(b, j);
    }
    assert multiset(a) == multiset(b);
    assert |multiset(a)| == |a| && |multiset(b)| == |b|;
  }

  lemma StepInv(s: State, s': State, willparse: seq<Job>, fromcache: nat)
    requires Inv(s, willparse, fromcache) && Step(s, s', |willparse|)
    ensures Inv(s', willparse, fromcache)
  {
    if SomeWorkerSteps(s, s') {
      WorkerInv(s, s', willparse, fromcache);
    } else if Kill(s, s') {
      KillInv(s, s', willparse, fromcache);
    } else if Deliver(s, s') {
      DeliverInv(s, s', willparse, fromcache);
    } else if LoopExit(s, s', |willparse|) {
      LoopExitInv(s, s', willparse, fromcache);
    } else if Shutdown(s, s') {
      ShutdownInv(s, s', willparse, fromcache);
    } else {
      ConsumerInv(s, s', willparse, fromcache);
    }
  }

  lemma LoopExitInv(s: State, s': State, willparse: seq<Job>, fromcache: nat)
    requires Inv(s, willparse, fromcache) && LoopExit(s, s', |willparse|)
    ensures Inv(s', willparse, fromcache)
  {
    hide Count, WorkerOk;
    QuittingIsWeaker(s);
    if Blameless(s) {
      DrainedIsComplete(s, willparse, fromcache);
    }
    assert Blameless(s') <==> Blameless(s);
    assert Conserved(s', willparse);
  }

  lemma ShutdownInv(s: State, s': State, willparse: seq<Job>, fromcache: nat)
    requires Inv(s, willparse, fromcache) && Shutdown(s, s')
    ensures Inv(s', willparse, fromcache)
  {
    hide Count, WorkerOk, Counted;
    SameCounts(s, s', fromcache);
    forall j
      ensures Held(s'.workers, j) + Count(JobsOf(s'.queue), j) + Count(JobsOf(s'.delivered), j) + Count(s'.lost, j) ==
              Count(willparse, j)
    {
      if s'.queue != s.queue {
        PopCount(s.queue, j);
        CountPlus(s.lost, [s.queue[0].job], j);
      }
    }
    assert Blameless(s') <==> Blameless(s);
  }

  lemma ConsumerInv(s: State, s': State, willparse: seq<Job>, fromcache: nat)
    requires Inv(s, willparse, fromcache)
    requires NextCached(s, s') || CacheDone(s, s', |willparse|) || Reap(s, s', |willparse|) || Timeout(s, s')
    ensures Inv(s', willparse, fromcache)
  {
    hide Count, WorkerOk;
    QuittingIsWeaker(s);
    assert NobodyKilled(s') <==> NobodyKilled(s);
    assert Conserved(s', willparse);
  }

  // ---------- nobody gets stuck ----------

  /** What is left to do for a worker; a result that is postponed costs as much as a job. */
  function Load(w: Worker): nat {
    13 * |w.jobs| + 13 * |w.pending| + (if w.hand.Some? then 12 else 0) + 11 * |w.buffer| +
    (if w.running then 1 else 0) + if w.alive then 1 else 0
  }

  function Loads(ws: seq<Worker>): nat {
    if ws == [] then 0 else Load(ws[0]) + Loads(ws[1..])
  }

  lemma {:induction false} LoadsUpdate(ws: seq<Worker>, i: nat, w: Worker)
    requires i < |ws|
    ensures Loads(ws[i := w]) + Load(ws[i]) == Loads(ws) + Load(w)
  {
    hide Load;
    if i == 0 {
      assert ws[0 := w][1..] == ws[1..];
    } else {
      assert ws[i := w][1..] == ws[1..][i - 1 := w];
      LoadsUpdate(ws[1..], i - 1, w);
    }
  }

  /** How far the consumer is from the end when nothing more comes. */
  function Distance(s: State): nat {
    match s.place
    case Caching => 6 + s.cachedLeft
    case AtTop => if s.procs != {} then 4 else if s.empty then 1 else 3
    case Waiting => if s.procs != {} then 5 else 2
    case Ended(_) => 0
  }

  /** The work left: what the workers hold, what is queued, and the way of the consumer. */
  function Work(s: State): nat {
    Loads(s.workers) + 10 * |s.queue| + Distance(s)
  }

  ghost predicate AllParsed(rs: seq<Result>) {
    forall r :: r in rs ==> r.Parsed?
  }

  ghost predicate CleanWorker(w: Worker) {
    !w.killed && (w.hand.Some? ==> w.hand.value.Parsed?) && AllParsed(w.pending) && AllParsed(w.buffer)
  }

  /** So far no worker was killed and no recipe failed to parse. */
  ghost predicate Clean(s: State) {
    && (forall i :: 0 <= i < |s.workers| ==> CleanWorker(s.workers[i]))
    && AllParsed(s.queue) && AllParsed(s.delivered)
  }

  /** A worker that is alive and not told to quit can always do something that leaves less to do. */
  lemma WorkerProgress(w: Worker, queue: seq<Result>) returns (w': Worker, queue': seq<Result>)
    requires WorkerOk(w, false) && w.alive
    ensures WorkerStep(w, w', queue, queue', 0, 0)
    ensures Load(w') + 10 * |queue'| < Load(w) + 10 * |queue|
    ensures CleanWorker(w) && AllParsed(queue) ==> CleanWorker(w') && AllParsed(queue')
  {
    queue' := queue;
    if w.hand.Some? {
      w' := w.(hand := None, buffer := w.buffer + [w.hand.value]);
    } else if w.pending != [] {
      w' := w.(hand := Some(w.pending[|w.pending| - 1]), pending := w.pending[..|w.pending| - 1]);
    } else if w.jobs != [] {
      w' := w.(hand := Some(Parsed(w.jobs[|w.jobs| - 1])), jobs := w.jobs[..|w.jobs| - 1]);
    } else if w.running {
      w' := w.(running := false);
    } else if w.buffer != [] {
      w', queue' := w.(buffer := w.buffer[1..]), queue + [w.buffer[0]];
    } else {
      w' := w.(alive := false);
    }
  }

  /** One step of a worker, or none is alive. */
  lemma SomeWorkerProgress(s: State, i: nat) returns (s': State)
    requires i < |s.workers| && WorkerOk(s.workers[i], false) && s.workers[i].alive && s.quits == 0
    ensures SomeWorkerSteps(s, s') && Work(s') < Work(s) && (Clean(s) ==> Clean(s'))
  {
    hide WorkerStep, Load, CleanWorker, AllParsed, WorkerOk;
    var w', queue' := WorkerProgress(s.workers[i], s.queue);
    s' := s.(workers := s.workers[i := w'], queue := queue');
    LoadsUpdate(s.workers, i, w');
    assert s'.workers[i] == w';
    assert Clean(s) ==> CleanWorker(s.workers[i]);
  }

  /** With every worker gone the consumer can always go on. */
  lemma ConsumerProgress(s: State, willparse: seq<Job>, fromcache: nat) returns (s': State)
    requires Inv(s, willparse, fromcache) && !s.place.Ended?
    requires forall i :: 0 <= i < |s.workers| ==> !s.workers[i].alive
    ensures Step(s, s', |willparse|) && Work(s') < Work(s) && (Clean(s) ==> Clean(s'))
  {
    hide Conserved, WorkerOk, CleanWorker, Counted, SomeWorkerSteps, Kill;
    match s.place
    case Caching =>
      if s.cachedLeft > 0 {
        s' := s.(cachedLeft := s.cachedLeft - 1, current := s.current + 1, cached := s.cached + 1);
        assert NextCached(s, s');
      } else {
        s' := s.(place := if |willparse| > 0 then AtTop else Ended(true));
        assert CacheDone(s, s', |willparse|);
      }
    case AtTop =>
      if s.procs == {} && s.empty {
        s' := if s.parsed >= |willparse| then s.(place := Ended(true))
          else s.(place := Ended(false), error := s.error + 1);
        assert LoopExit(s, s', |willparse|);
      } else {
        s' := s.(procs := {}, place := if s.parsed >= |willparse| then Ended(true) else Waiting);
        assert Reap(s, s', |willparse|);
      }
    case Waiting =>
      if s.queue != [] {
        var got := s.(queue := s.queue[1..], delivered := s.delivered + [s.queue[0]], empty := false);
        s' := if s.queue[0].Failed? then got.(place := Ended(false), error := s.error + 1)
          else got.(place := AtTop, current := s.current + 1, parsed := s.parsed + 1);
        assert Deliver(s, s');
        assert s.queue[0] in s.queue;
      } else {
        s' := s.(place := AtTop, empty := true);
        assert Timeout(s, s');
      }
  }

  /** In every state short of the end some party can make a step that leaves less to do. */
  lemma Progress(s: State, willparse: seq<Job>, fromcache: nat) returns (s': State)
    requires Inv(s, willparse, fromcache) && !s.place.Ended?
    ensures Step(s, s', |willparse|) && Work(s') < Work(s) && (Clean(s) ==> Clean(s'))
  {
    hide Conserved, WorkerOk, Clean, Counted, SomeWorkerSteps, Work;
    if i :| 0 <= i < |s.workers| && s.workers[i].alive {
      s' := SomeWorkerProgress(s, i);
    } else {
      s' := ConsumerProgress(s, willparse, fromcache);
    }
  }

  /** What keeps a worker that is told to quit. */
  function Leaving(w: Worker): nat {
    (if w.hand.Some? then 2 else 0) + |w.buffer| + (if w.running then 1 else 0) + if w.alive then 1 else 0
  }

  /** A worker that finds a request to quit writes what it has put and exits, and parses nothing more. */
  lemma QuitsPromptly(w: Worker, queue: seq<Result>, quits: nat) returns (w': Worker, queue': seq<Result>, quits': nat)
    requires WorkerOk(w, true) && w.alive && (w.running ==> quits > 0)
    ensures WorkerStep(w, w', queue, queue', quits, quits')
    ensures w'.jobs == w.jobs && w'.pending == w.pending && Leaving(w') < Leaving(w)
    ensures w'.running ==> quits' > 0
  {
    queue', quits' := queue, quits;
    if w.hand.Some? {
      w' := w.(hand := None, buffer := w.buffer + [w.hand.value]);
    } else if w.running {
      w', quits' := w.(running := false), quits - 1;
    } else if w.buffer != [] {
      w', queue' := w.(buffer := w.buffer[1..]), queue + [w.buffer[0]];
    } else {
      w' := w.(alive := false);
    }
  }

  // ---------- whole runs ----------

  lemma {:induction false} RunInv(t: seq<State>, willparse: seq<Job>, fromcache: nat, threads: nat, i: nat)
    requires Run(t, willparse, fromcache, threads) && threads > 0 && i < |t|
    ensures Inv(t[i], willparse, fromcache)
  {
    if i == 0 {
      InitInv(t[0], willparse, fromcache, threads);
    } else {
      RunInv(t, willparse, fromcache, threads, i - 1);
      assert Step(t[i - 1], t[i - 1 + 1], |willparse|);
      StepInv(t[i - 1], t[i], willparse, fromcache);
    }
  }

  /**
   If the generator ends without error, every job was delivered exactly once, successfully, and the
   counters agree.
   */
  lemma ExactlyOnce(t: seq<State>, willparse: seq<Job>, fromcache: nat, threads: nat, i: nat)
    requires Run(t, willparse, fromcache, threads) && threads > 0 && i < |t|
    requires t[i].place == Ended(true)
    ensures multiset(JobsOf(t[i].delivered)) == multiset(willparse)
    ensures forall r :: r in t[i].delivered ==> r.Parsed?
    ensures t[i].parsed == |willparse| && t[i].cached == fromcache && t[i].error == 0
    ensures t[i].current == t[i].parsed + t[i].cached == |willparse| + fromcache
  {
    RunInv(t, willparse, fromcache, threads, i);
    var s := t[i];
    forall j ensures Count(JobsOf(s.delivered), j) <= Count(willparse, j) {
    }
    SubsetOfSameSize(JobsOf(s.delivered), willparse);
  }

  lemma SubsetOfSameSize(a: seq<Job>, b: seq<Job>)
    requires forall j :: Count(a, j) <= Count(b, j)
    requires |a| >= |b|
    ensures multiset(a) == multiset(b) && |a| == |b|
  {
    forall j: Job ensures multiset(a)[j] <= multiset(b)[j] {
      assert Count(a, j) <= Count(b, j);
    }
    assert multiset(a) <= multiset(b);
    var rest := multiset(b) - multiset(a);
    assert multiset(b) == multiset(a) + rest;
    assert |multiset(b)| == |multiset(a)| + |rest|;
    assert |multiset(a)| == |a| && |multiset(b)| == |b|;
  }

  /** The error "not all recipes parsed" is never raised unless a worker was killed or a recipe failed to parse. */
  lemma NoSpuriousFailure(t: seq<State>, willparse: seq<Job>, fromcache: nat, threads: nat, i: nat)
    requires Run(t, willparse, fromcache, threads) && threads > 0 && i < |t|
    requires t[i].place == Ended(false)
    ensures (exists w :: w in t[i].workers && w.killed) || (exists r :: r in t[i].delivered && r.Failed?)
  {
    RunInv(t, willparse, fromcache, threads, i);
    if j :| 0 <= j < |t[i].workers| && t[i].workers[j].killed {
      assert t[i].workers[j] in t[i].workers;
    }
  }

  /** Nothing is lost on the way, whatever the interleaving: each job is always in exactly one place. */
  lemma NothingLost(t: seq<State>, willparse: seq<Job>, fromcache: nat, threads: nat, i: nat)
    requires Run(t, willparse, fromcache, threads) && threads > 0 && i < |t|
    ensures forall j ::
            Held(t[i].workers, j) + Count(JobsOf(t[i].queue), j) + Count(JobsOf(t[i].delivered), j) +
            Count(t[i].lost, j) == Count(willparse, j)
    ensures forall w :: w in t[i].workers ==> |w.pending| <= 1 && (w.hand.Some? ==> w.pending == [])
    ensures (forall w :: w in t[i].workers ==> !w.killed) && !t[i].place.Ended? ==> t[i].lost == []
  {
    RunInv(t, willparse, fromcache, threads, i);
    if forall w :: w in t[i].workers ==> !w.killed {
      assert forall j :: 0 <= j < |t[i].workers| ==> t[i].workers[j] in t[i].workers;
    }
  }

  /**
   Nobody waits for ever: however the parties have been scheduled, and whoever was killed, parsing can
   be brought to its end; to a good one as long as no worker was killed and no recipe failed to parse.
   */
  lemma {:induction false} CanFinish(t: seq<State>, willparse: seq<Job>, fromcache: nat, threads: nat)
      returns (rest: seq<State>)
    requires Run(t, willparse, fromcache, threads) && threads > 0
    ensures Run(t + rest, willparse, fromcache, threads)
    ensures |rest| <= Work(t[|t| - 1])
    ensures var last := (t + rest)[|t + rest| - 1];
            last.place.Ended? && (Clean(t[|t| - 1]) ==> last.place == Ended(true))
    decreases Work(t[|t| - 1])
  {
    hide Inv, Step, Init, Work;
    var s := t[|t| - 1];
    RunInv(t, willparse, fromcache, threads, |t| - 1);
    if s.place.Ended? {
      rest := [];
      assert t + rest == t;
      if Clean(s) {
        CleanEndsWell(s, willparse, fromcache);
      }
    } else {
      var s' := Progress(s, willparse, fromcache);
      RunPush(t, s', willparse, fromcache, threads);
      var more := CanFinish(t + [s'], willparse, fromcache, threads);
      rest := [s'] + more;
      assert t + [s'] + more == t + rest;
    }
  }

  lemma RunPush(t: seq<State>, s': State, willparse: seq<Job>, fromcache: nat, threads: nat)
    requires Run(t, willparse, fromcache, threads) && Step(t[|t| - 1], s', |willparse|)
    ensures Run(t + [s'], willparse, fromcache, threads)
  {
    hide Step, Init;
    var longer := t + [s'];
    forall i | 0 <= i < |longer| - 1 ensures Step(longer[i], longer[i + 1], |willparse|) {
      if i < |t| - 1 {
        assert Step(t[i], t[i + 1], |willparse|);
      }
    }
  }

  // ---------- shutting down ----------

  /** The workers that have not been told to quit, nor come to the end of their work. */
  ghost function AtWork(s: State): set<nat> {
    set i | 0 <= i < |s.workers| && s.workers[i].alive && s.workers[i].running
  }

  function AllLeaving(ws: seq<Worker>): nat {
    if ws == [] then 0 else Leaving(ws[0]) + AllLeaving(ws[1..])
  }

  lemma {:induction false} LeavingUpdate(ws: seq<Worker>, i: nat, w: Worker)
    requires i < |ws|
    ensures AllLeaving(ws[i := w]) + Leaving(ws[i]) == AllLeaving(ws) + Leaving(w)
  {
    hide Leaving;
    if i == 0 {
      assert ws[0 := w][1..] == ws[1..];
    } else {
      assert ws[i := w][1..] == ws[1..][i - 1 := w];
      LeavingUpdate(ws[1..], i - 1, w);
    }
  }

  /** No worker has parsed anything more, and the consumer is where it was. */
  ghost predicate OnlyLeft(s: State, z: State) {
    && |z.workers| == |s.workers| && z.place == s.place && z.delivered == s.delivered
    && forall i :: 0 <= i < |s.workers| ==> z.workers[i].jobs == s.workers[i].jobs
  }

  lemma OnlyLeftTrans(s: State, y: State, z: State)
    requires OnlyLeft(s, y) && OnlyLeft(y, z)
    ensures OnlyLeft(s, z)
  {
  }

  /** There is a request to quit for everyone at work: one worker can go on leaving. */
  lemma LeavingStep(s: State, i: nat) returns (s': State)
    requires i < |s.workers| && WorkerOk(s.workers[i], true) && s.workers[i].alive && |AtWork(s)| <= s.quits
    ensures SomeWorkerSteps(s, s') && OnlyLeft(s, s') && |AtWork(s')| <= s'.quits
    ensures AllLeaving(s'.workers) < AllLeaving(s.workers)
  {
    hide WorkerStep, Leaving, WorkerOk;
    var w := s.workers[i];
    if w.running {
      assert i in AtWork(s);
      assert AtWork(s) == (AtWork(s) - {i}) + {i};
    }
    var w', queue', quits' := QuitsPromptly(w, s.queue, s.quits);
    QuitsByOne(w, w', s.queue, queue', s.quits, quits');
    s' := s.(workers := s.workers[i := w'], queue := queue', quits := quits');
    LeavingUpdate(s.workers, i, w');
    assert s'.workers[i] == w';
    if w'.alive && w'.running {
      assert AtWork(s') <= AtWork(s);
      CardMonotone(AtWork(s'), AtWork(s));
    } else {
      assert AtWork(s') <= AtWork(s) - {i};
      CardMonotone(AtWork(s'), AtWork(s) - {i});
    }
  }

  /** A request is used up only by a worker that stops. */
  lemma QuitsByOne(w: Worker, w': Worker, queue: seq<Result>, queue': seq<Result>, quits: nat, quits': nat)
    requires WorkerStep(w, w', queue, queue', quits, quits')
    ensures quits' == quits || (quits' == quits - 1 && w.running && !w'.running)
    ensures w'.running ==> w.running
    ensures !w.running ==> quits' == quits
    ensures w'.alive ==> w.alive
  {
  }

  ghost predicate AllGone(s: State) {
    forall w :: w in s.workers ==> !w.alive
  }

  /** All are gone, or somebody can take a step towards leaving. */
  lemma LeaveNext(s: State, toparse: nat) returns (s': State)
    requires s.place.Ended? && |AtWork(s)| <= s.quits
    requires forall i :: 0 <= i < |s.workers| ==> WorkerOk(s.workers[i], true)
    ensures OnlyLeft(s, s') && |AtWork(s')| <= s'.quits && s'.place.Ended?
    ensures AllGone(s) || (Step(s, s', toparse) && AllLeaving(s'.workers) < AllLeaving(s.workers))
  {
    hide WorkerOk, SomeWorkerSteps, AtWork, Kill;
    if i :| 0 <= i < |s.workers| && s.workers[i].alive {
      s' := LeavingStep(s, i);
    } else {
      s' := s;
    }
  }

  /** Everybody has been asked to quit who has not stopped. */
  ghost predicate AskedToQuit(s: State) {
    s.place.Ended? && |AtWork(s)| <= s.quits
  }

  lemma LeaveOnce(t: seq<State>, willparse: seq<Job>, fromcache: nat, threads: nat) returns (s': State)
    requires Run(t, willparse, fromcache, threads) && threads > 0
    requires AskedToQuit(t[|t| - 1]) && !AllGone(t[|t| - 1])
    ensures Run(t + [s'], willparse, fromcache, threads) && AskedToQuit(s') && OnlyLeft(t[|t| - 1], s')
    ensures AllLeaving(s'.workers) < AllLeaving(t[|t| - 1].workers)
  {
    var s := t[|t| - 1];
    RunInv(t, willparse, fromcache, threads, |t| - 1);
    assert forall i :: 0 <= i < |s.workers| ==> WorkerOk(s.workers[i], true);
    hide Run, Inv, WorkerOk, AtWork, AllLeaving, OnlyLeft, AllGone, Step;
    s' := LeaveNext(s, |willparse|);
    RunPush(t, s', willparse, fromcache, threads);
  }

  lemma {:induction false} AllLeave(t: seq<State>, willparse: seq<Job>, fromcache: nat, threads: nat)
      returns (u: seq<State>)
    requires Run(t, willparse, fromcache, threads) && threads > 0 && AskedToQuit(t[|t| - 1])
    ensures t <= u && Run(u, willparse, fromcache, threads) && OnlyLeft(t[|t| - 1], u[|u| - 1])
    ensures AllGone(u[|u| - 1])
    decreases AllLeaving(t[|t| - 1].workers)
  {
    var s := t[|t| - 1];
    hide Run, AllLeaving, AskedToQuit, OnlyLeft, AllGone;
    if AllGone(s) {
      u := t;
      OnlyLeftRefl(s);
    } else {
      var s' := LeaveOnce(t, willparse, fromcache, threads);
      u := AllLeave(t + [s'], willparse, fromcache, threads);
      OnlyLeftTrans(s, s', u[|u| - 1]);
    }
  }

  lemma OnlyLeftRefl(s: State)
    ensures OnlyLeft(s, s)
  {
  }

  lemma {:induction false} Drain(t: seq<State>, willparse: seq<Job>, fromcache: nat, threads: nat)
      returns (u: seq<State>)
    requires Run(t, willparse, fromcache, threads) && t[|t| - 1].place.Ended?
    ensures t <= u && Run(u, willparse, fromcache, threads)
    ensures u[|u| - 1].workers == t[|t| - 1].workers && u[|u| - 1].queue == []
    ensures u[|u| - 1].place == t[|t| - 1].place && u[|u| - 1].delivered == t[|t| - 1].delivered
    decreases |t[|t| - 1].queue|
  {
    var s := t[|t| - 1];
    hide Run, SomeWorkerSteps, Kill;
    if s.queue == [] {
      u := t;
    } else {
      var s' := s.(queue := s.queue[1..], lost := s.lost + [s.queue[0].job]);
      assert Shutdown(s, s');
      RunPush(t, s', willparse, fromcache, threads);
      u := Drain(t + [s'], willparse, fromcache, threads);
    }
  }

  /** After the end, good or bad, all workers can be made to exit without parsing anything more. */
  lemma CanShutDown(t: seq<State>, willparse: seq<Job>, fromcache: nat, threads: nat) returns (u: seq<State>)
    requires Run(t, willparse, fromcache, threads) && threads > 0 && t[|t| - 1].place.Ended?
    ensures t <= u && Run(u, willparse, fromcache, threads) && OnlyLeft(t[|t| - 1], u[|u| - 1])
    ensures u[|u| - 1].queue == [] && forall w :: w in u[|u| - 1].workers ==> !w.alive
  {
    var s := t[|t| - 1];
    RunInv(t, willparse, fromcache, threads, |t| - 1);
    hide Run, Conserved, Counted, WorkerOk, SomeWorkerSteps, Kill;
    var s' := s.(quits := s.quits + |s.procs|);
    assert AtWork(s') <= s.procs;
    CardMonotone(AtWork(s'), s.procs);
    assert Shutdown(s, s');
    RunPush(t, s', willparse, fromcache, threads);
    var v := AllLeave(t + [s'], willparse, fromcache, threads);
    u := Drain(v, willparse, fromcache, threads);
  }

  function Alone(w: Worker, queue: seq<Result>): State {
    State([w], 0, queue, [], Caching, 0, {0}, false, 0, 0, 0, 0, [])
  }

  lemma AloneStart(j: Job)
    ensures Run([Alone(Worker([j], None, [], [], true, true, false), [])], [j], 0, 1)
  {
    var w := Worker([j], None, [], [], true, true, false);
    assert Stride([j], 0, 1) == [j];
    assert [w] == seq(1, i requires 0 <= i < 1 => Worker(Stride([j], i, 1), None, [], [], true, true, false));
  }

  /** A run in which the queue is full at first: the result is put off, taken up again and delivered. */
  lemma PutOff(j: Job) returns (t: seq<State>)
    ensures Run(t, [j], 0, 1) && t[|t| - 1].place == Ended(true) && t[|t| - 1].delivered == [Parsed(j)]
    ensures exists i :: 0 <= i < |t| && |t[i].workers| == 1 && t[i].workers[0].pending == [Parsed(j)]
  {
    var r := Parsed(j);
    AloneStart(j);
    var s0 := Alone(Worker([j], None, [], [], true, true, false), []);
    var s1 := Alone(Worker([], Some(r), [], [], true, true, false), []);
    var s2 := Alone(Worker([], None, [r], [], true, true, false), []);
    var s4 := Alone(Worker([], None, [], [r], true, true, false), []);
    var s5 := Alone(Worker([], None, [], [], true, true, false), [r]);
    OnlyWorker(s0, s1);
    OnlyWorker(s1, s2);
    OnlyWorker(s2, s1);
    OnlyWorker(s1, s4);
    OnlyWorker(s4, s5);
    hide Run, Step, Alone, SomeWorkerSteps;
    t := [s0, s1, s2, s1, s4, s5];
    RunPush([s0], s1, [j], 0, 1);
    RunPush([s0] + [s1], s2, [j], 0, 1);
    RunPush([s0] + [s1] + [s2], s1, [j], 0, 1);
    RunPush([s0] + [s1] + [s2] + [s1], s4, [j], 0, 1);
    RunPush([s0] + [s1] + [s2] + [s1] + [s4], s5, [j], 0, 1);
    assert t == [s0] + [s1] + [s2] + [s1] + [s4] + [s5];
    ShowsPending(r);
    var early := t;
    t := Consumed(early, r);
    assert early[2] == s2 && t[2] == early[2];
  }

  lemma ShowsPending(r: Result)
    ensures |Alone(Worker([], None, [r], [], true, true, false), []).workers| == 1
    ensures Alone(Worker([], None, [r], [], true, true, false), []).workers[0].pending == [r]
  {
  }

  lemma OnlyWorker(s: State, s': State)
    requires |s.workers| == 1 && |s'.workers| == 1 && s' == s.(workers := s'.workers, queue := s'.queue)
    requires WorkerStep(s.workers[0], s'.workers[0], s.queue, s'.queue, s.quits, s.quits)
    ensures Step(s, s', 1)
  {
    hide WorkerStep;
    assert s.workers[0 := s'.workers[0]] == s'.workers;
    assert SomeWorkerSteps(s, s');
  }

  /** The consumer takes the one result, and sees that nothing is left. */
  lemma Consumed(t: seq<State>, r: Result) returns (u: seq<State>)
    requires Run(t, [r.job], 0, 1) && r.Parsed?
    requires t[|t| - 1] == Alone(Worker([], None, [], [], true, true, false), [r])
    ensures t <= u && Run(u, [r.job], 0, 1) && u[|u| - 1].place == Ended(true) && u[|u| - 1].delivered == [r]
  {
    var s5 := t[|t| - 1];
    hide Run;
    var s6 := s5.(place := AtTop);
    var s7 := s6.(place := Waiting);
    var s8 := s7.(queue := [], delivered := [r], place := AtTop, current := 1, parsed := 1);
    var s9 := s8.(place := Ended(true));
    assert CacheDone(s5, s6, 1) && Reap(s6, s7, 1) && Deliver(s7, s8) && Reap(s8, s9, 1);
    assert Step(s5, s6, 1) && Step(s6, s7, 1) && Step(s7, s8, 1) && Step(s8, s9, 1);
    hide Step;
    RunPush(t, s6, [r.job], 0, 1);
    RunPush(t + [s6], s7, [r.job], 0, 1);
    RunPush(t + [s6] + [s7], s8, [r.job], 0, 1);
    RunPush(t + [s6] + [s7] + [s8], s9, [r.job], 0, 1);
    u := t + [s6] + [s7] + [s8] + [s9];
  }

  lemma CleanEndsWell(s: State, willparse: seq<Job>, fromcache: nat)
    requires Inv(s, willparse, fromcache) && s.place.Ended? && Clean(s)
    ensures s.place == Ended(true)
  {
    assert Blameless(s);
  }

  /** With no parse thread at all the jobs are handed to nobody, and a run that has any never ends well. */
  lemma {:induction false} NoThreads(t: seq<State>, willparse: seq<Job>, fromcache: nat, i: nat)
    requires Run(t, willparse, fromcache, 0) && willparse != [] && i < |t|
    ensures t[i].workers == [] && t[i].queue == [] && t[i].parsed == 0 && t[i].place != Ended(true)
  {
    if i > 0 {
      NoThreads(t, willparse, fromcache, i - 1);
      assert Step(t[i - 1], t[i - 1 + 1], |willparse|);
    }
  }
}
