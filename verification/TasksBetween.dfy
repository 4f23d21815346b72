/** The tasks of a recipe that lie between two of them. */
module TasksBetween {
  import opened Collections

  type Task = string

  /** Each task and the tasks it runs after. */
  datatype TaskGraph = TaskGraph(tasks: seq<Task>, deps: map<Task, seq<Task>>)

  ghost predicate WellFormed(g: TaskGraph) {
    NoDup(g.tasks) && forall t :: t in g.tasks ==> t in g.deps
  }

  /** b runs directly after a; a task's dependency on itself does not count. */
  ghost predicate Edge(g: TaskGraph, a: Task, b: Task) {
    b in g.tasks && b in g.deps && b != a && a in g.deps[b]
  }

  ghost predicate IsPath(g: TaskGraph, p: seq<Task>) {
    p != [] && forall i :: 0 <= i < |p| - 1 ==> Edge(g, p[i], p[i + 1])
  }

  /** A path from a task that stops when it comes to the end task. */
  ghost predicate IsWalk(g: TaskGraph, p: seq<Task>, start: Task, end: Task) {
    IsPath(g, p) && p[0] == start && forall i :: 0 <= i < |p| - 1 ==> p[i] != end
  }

  ghost predicate Acyclic(g: TaskGraph) {
    forall p :: IsPath(g, p) ==> NoDup(p)
  }

  /** Some other task than the end one exists: without it the search reports nothing. */
  predicate HasOther(g: TaskGraph, end: Task) {
    exists t :: t in g.tasks && t != end
  }

  lemma WalkStep(g: TaskGraph, a: Task, p: seq<Task>, end: Task)
    requires p != [] && Edge(g, a, p[0]) && a != end && IsWalk(g, p, p[0], end)
    ensures IsWalk(g, [a] + p, a, end)
  {
    var q := [a] + p;
    forall i | 0 <= i < |q| - 1 ensures Edge(g, q[i], q[i + 1]) && q[i] != end {
      if i > 0 {
        assert q[i] == p[i - 1] && q[i + 1] == p[i - 1 + 1];
      }
    }
  }

  lemma WalkTail(g: TaskGraph, p: seq<Task>, start: Task, end: Task)
    requires IsWalk(g, p, start, end) && |p| > 1
    ensures start != end && Edge(g, start, p[1]) && IsWalk(g, p[1..], p[1], end)
  {
    assert Edge(g, p[0], p[0 + 1]);
    var q := p[1..];
    forall i | 0 <= i < |q| - 1 ensures Edge(g, q[i], q[i + 1]) && q[i] != end {
      assert Edge(g, p[i + 1], p[i + 1 + 1]);
    }
  }

  /** Every walk on from start was followed: it repeats no task, and if it comes to the end its tasks are listed. */
  ghost predicate Followed(g: TaskGraph, end: Task, before: seq<Task>, start: Task, found: seq<Task>) {
    forall w {:trigger IsWalk(g, w, start, end)} :: IsWalk(g, w, start, end) ==>
      NoDup(before + w) && (w[|w| - 1] == end && HasOther(g, end) ==> Elems(before + w) <= Elems(found))
  }

  /** Whatever was listed since was lies on a walk to the end. */
  ghost predicate Justified(g: TaskGraph, end: Task, before: seq<Task>, start: Task, was: seq<Task>, found: seq<Task>) {
    forall t :: t in found && t !in was ==> HasOther(g, end) && OnWalk(g, end, before, start, t)
  }

  ghost predicate OnWalk(g: TaskGraph, end: Task, before: seq<Task>, start: Task, t: Task) {
    exists w :: IsWalk(g, w, start, end) && w[|w| - 1] == end && t in before + w
  }

  /** Some walk on from start comes back to a task it has met. */
  ghost predicate Repeats(g: TaskGraph, end: Task, before: seq<Task>, start: Task) {
    exists w :: IsWalk(g, w, start, end) && !NoDup(before + w)
  }

  lemma Prepend(before: seq<Task>, task: Task, w: seq<Task>)
    ensures before + [task] + w == before + ([task] + w)
  {
  }

  lemma RepeatsStep(g: TaskGraph, end: Task, before: seq<Task>, task: Task, next: Task)
    requires Edge(g, task, next) && task != end && Repeats(g, end, before + [task], next)
    ensures Repeats(g, end, before, task)
  {
    var w :| IsWalk(g, w, next, end) && !NoDup(before + [task] + w);
    WalkStep(g, task, w, end);
    Prepend(before, task, w);
    assert IsWalk(g, [task] + w, task, end);
  }

  lemma JustifiedStep(g: TaskGraph, end: Task, before: seq<Task>, task: Task, next: Task, was: seq<Task>,
      mid: seq<Task>, found: seq<Task>)
    requires Edge(g, task, next) && task != end
    requires Justified(g, end, before, task, was, mid) && Justified(g, end, before + [task], next, mid, found)
    ensures Justified(g, end, before, task, was, found)
  {
    forall t | t in found && t !in was ensures HasOther(g, end) && OnWalk(g, end, before, task, t) {
      if t !in mid {
        var w :| IsWalk(g, w, next, end) && w[|w| - 1] == end && t in before + [task] + w;
        WalkStep(g, task, w, end);
        Prepend(before, task, w);
        var q := [task] + w;
        assert IsWalk(g, q, task, end) && q[|q| - 1] == end;
      }
    }
  }

  lemma FollowedMore(g: TaskGraph, end: Task, before: seq<Task>, start: Task, found: seq<Task>, more: seq<Task>)
    requires Followed(g, end, before, start, found) && found <= more
    ensures Followed(g, end, before, start, more)
  {
    assert Elems(found) <= Elems(more) by {
      forall t | t in found ensures t in more {
        var i :| 0 <= i < |found| && found[i] == t;
        assert more[i] == t;
      }
    }
  }

  /** All ways on were followed, so all walks from here were. */
  lemma FollowedAll(g: TaskGraph, end: Task, before: seq<Task>, task: Task, found: seq<Task>)
    requires NoDup(before + [task])
    requires task == end && HasOther(g, end) ==> Elems(before + [task]) <= Elems(found)
    requires task != end ==> forall o :: Edge(g, task, o) ==> Followed(g, end, before + [task], o, found)
    ensures Followed(g, end, before, task, found)
  {
    forall w {:trigger IsWalk(g, w, task, end)} | IsWalk(g, w, task, end)
      ensures NoDup(before + w) && (w[|w| - 1] == end && HasOther(g, end) ==> Elems(before + w) <= Elems(found))
    {
      if |w| == 1 {
        assert w == [task];
      } else {
        WalkTail(g, w, task, end);
        assert w == [task] + w[1..];
        Prepend(before, task, w[1..]);
      }
    }
  }

  class Search {
    const g: TaskGraph
    const end: Task
    var chain: seq<Task>
    var outtasks: seq<Task>

    constructor (g: TaskGraph, end: Task)
      ensures this.g == g && this.end == end && chain == [] && outtasks == []
    {
      this.g, this.end := g, end;
      chain, outtasks := [], [];
    }

    /** The chain has come to the end task: its members are listed, each once. */
    method Report()
      requires NoDup(outtasks)
      modifies this`outtasks
      ensures NoDup(outtasks) && old(outtasks) <= outtasks
      ensures Elems(outtasks) == old(Elems(outtasks)) + Elems(chain)
    {
      for i := 0 to |chain|
        invariant NoDup(outtasks) && old(outtasks) <= outtasks
        invariant Elems(outtasks) == old(Elems(outtasks)) + Elems(chain[..i])
      {
        assert chain[..i + 1] == chain[..i] + [chain[i]];
        InElems(outtasks, chain[i]);
        if chain[i] !in outtasks {
          NoDupPush(outtasks, chain[i]);
          ElemsPush(outtasks, chain[i]);
          outtasks := outtasks + [chain[i]];
        }
        ElemsPush(chain[..i], chain[i]);
      }
      assert chain[..|chain|] == chain;
    }

    /** Follow every chain of tasks on from one task; the result tells of a circular dependency. */
    method FollowChain(task: Task, ghost start: Task) returns (circular: bool)
      requires WellFormed(g) && NoDup(chain) && NoDup(outtasks)
      requires Elems(chain) <= Elems(g.tasks) + {start} && task in Elems(g.tasks) + {start}
      modifies this
      ensures NoDup(outtasks) && old(outtasks) <= outtasks
      ensures Justified(g, end, old(chain), task, old(outtasks), outtasks)
      ensures !circular ==> chain == old(chain) && Followed(g, end, chain, task, outtasks)
      ensures circular ==> Repeats(g, end, old(chain), task)
      decreases |Elems(g.tasks) + {start} - Elems(chain)|
    {
      hide Justified, Followed, Repeats, NoDup, Elems;
      ghost var before, was := chain, outtasks;
      assert IsWalk(g, [task], task, end);
      InElems(chain, task);
      JustifiedRefl(g, end, before, task, was);
      if task in chain {
        RepeatsNow(g, end, before, task);
        return true;
      }
      NoDupPush(chain, task);
      ElemsPush(chain, task);
      chain := chain + [task];
      for i := 0 to |g.tasks|
        invariant chain == before + [task] && NoDup(outtasks) && was <= outtasks
        invariant Justified(g, end, before, task, was, outtasks)
        invariant task == end && (exists j :: 0 <= j < i && g.tasks[j] != end) ==> Elems(chain) <= Elems(outtasks)
        invariant task != end ==> forall j :: 0 <= j < i && Edge(g, task, g.tasks[j]) ==>
                  Followed(g, end, chain, g.tasks[j], outtasks)
      {
        var othertask := g.tasks[i];
        assert othertask in g.tasks;
        if othertask == task {
          continue;
        }
        ghost var mid := outtasks;
        if task == end {
          Report();
          assert HasOther(g, end);
          JustifiedHere(g, end, before, task, was, mid, outtasks);
        } else if task in g.deps[othertask] {
          InElems(g.tasks, othertask);
          SmallerCard(Elems(g.tasks) + {start} - Elems(chain), Elems(g.tasks) + {start} - Elems(before));
          circular := FollowChain(othertask, start);
          JustifiedStep(g, end, before, task, othertask, was, mid, outtasks);
          if circular {
            RepeatsStep(g, end, before, task, othertask);
            return true;
          }
          forall j | 0 <= j < i && Edge(g, task, g.tasks[j]) ensures Followed(g, end, chain, g.tasks[j], outtasks) {
            FollowedMore(g, end, chain, g.tasks[j], mid, outtasks);
          }
        }
      }
      if HasOther(g, end) {
        var o :| o in g.tasks && o != end;
        var j :| 0 <= j < |g.tasks| && g.tasks[j] == o;
      }
      FollowedAll(g, end, before, task, outtasks);
      chain := chain[..|chain| - 1];
      return false;
    }
  }

  lemma JustifiedRefl(g: TaskGraph, end: Task, before: seq<Task>, start: Task, was: seq<Task>)
    ensures Justified(g, end, before, start, was, was)
  {
  }

  lemma RepeatsNow(g: TaskGraph, end: Task, before: seq<Task>, task: Task)
    requires task in before
    ensures Repeats(g, end, before, task)
  {
    assert IsWalk(g, [task], task, end);
    var i :| 0 <= i < |before| && before[i] == task;
    var all := before + [task];
    assert all[i] == all[|before|];
    assert !NoDup(all);
  }

  lemma JustifiedHere(g: TaskGraph, end: Task, before: seq<Task>, task: Task, was: seq<Task>, mid: seq<Task>,
      found: seq<Task>)
    requires task == end && HasOther(g, end)
    requires Justified(g, end, before, task, was, mid)
    requires Elems(found) == Elems(mid) + Elems(before + [task])
    ensures Justified(g, end, before, task, was, found)
  {
    assert IsWalk(g, [task], task, end);
    forall t | t in found && t !in was ensures OnWalk(g, end, before, task, t) {
      assert t in Elems(found);
      assert t in mid || t in before + [task];
      if t in before + [task] {
        assert [task][|[task]| - 1] == end;
      }
    }
  }

  method Between(g: TaskGraph, start: Task, end: Task) returns (circular: bool, outtasks: seq<Task>)
    requires WellFormed(g)
    ensures NoDup(outtasks)
    ensures circular <==> Repeats(g, end, [], start)
    ensures !circular ==> forall t :: t in outtasks <==> HasOther(g, end) && OnWalk(g, end, [], start, t)
  {
    var search := new Search(g, end);
    circular := search.FollowChain(start, start);
    outtasks := search.outtasks;
    if !circular {
      forall t | HasOther(g, end) && OnWalk(g, end, [], start, t) ensures t in outtasks {
        var w :| IsWalk(g, w, start, end) && w[|w| - 1] == end && t in [] + w;
        InElems([] + w, t);
        InElems(outtasks, t);
      }
    }
  }

  /** A dependency path from start to end that passes through t. */
  ghost predicate Lies(g: TaskGraph, start: Task, end: Task, t: Task) {
    exists p :: IsPath(g, p) && p[0] == start && p[|p| - 1] == end && t in p
  }

  /**
   Without circular dependencies nothing is reported as circular, and the walks to the end are all
   the paths there are.
   */
  lemma AcyclicBetween(g: TaskGraph, start: Task, end: Task)
    requires Acyclic(g)
    ensures !Repeats(g, end, [], start)
    ensures forall t :: OnWalk(g, end, [], start, t) <==> Lies(g, start, end, t)
  {
    forall w | IsWalk(g, w, start, end) ensures NoDup([] + w) {
      assert [] + w == w;
    }
    forall t | Lies(g, start, end, t) ensures OnWalk(g, end, [], start, t) {
      var p :| IsPath(g, p) && p[0] == start && p[|p| - 1] == end && t in p;
      assert NoDup(p);
      assert IsWalk(g, p, start, end);
      assert [] + p == p;
    }
    forall t | OnWalk(g, end, [], start, t) ensures Lies(g, start, end, t) {
      var w :| IsWalk(g, w, start, end) && w[|w| - 1] == end && t in [] + w;
      assert [] + w == w;
    }
  }
}
