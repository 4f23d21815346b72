/**
 A dictionary that is copied by making an empty child that looks through to its parent.
 Lists are shared with the parent until the child first asks for one to change.
 */
module CowDict {
  import opened Collections

  type Key = string

  /** Immutable values, and the marker that stands for a deleted key. */
  datatype Atom = Value(v: string) | Marker

  /** What reading a key gives: KeyError, an immutable value, or the elements of a list. */
  datatype Reading = Missing | Plain(v: string) | Items(items: seq<string>)

  /** A list held by a dictionary; home and key say where it is held. */
  class PyList {
    var items: seq<string>
    ghost const home: CowNode
    ghost const key: Key

    constructor (items: seq<string>, ghost home: CowNode, ghost key: Key)
      ensures this.items == items && this.home == home && this.key == key
    {
      this.items, this.home, this.key := items, home, key;
    }

    method Append(x: string)
      modifies this
      ensures items == old(items) + [x]
    {
      items := items + [x];
    }
  }

  class CowNode {
    const parent: CowNode?
    ghost const chain: set<CowNode>   // this node and its ancestors
    var atoms: map<Key, Atom>         // class attributes named by the key itself
    var lists: map<Key, PyList>       // class attributes named by the key and the mutable suffix

    ghost predicate Linked()
      decreases chain
    {
      && this in chain
      && (if parent == null then chain == {this}
          else this !in parent.chain && chain == {this} + parent.chain && parent.Linked())
    }

    /** Its lists are held nowhere else. */
    ghost predicate Owned()
      reads this`lists
    {
      forall k :: k in lists ==> lists[k].home == this && lists[k].key == k
    }

    ghost function ChainLists(): set<PyList>
      reads chain`lists
    {
      set n, k | n in chain && k in n.lists :: n.lists[k]
    }

    /** The nearest immutable entry on the chain. */
    function FindAtom(k: Key): Option<Atom>
      requires Linked()
      reads chain`atoms
      decreases chain
    {
      if k in atoms then Some(atoms[k])
      else if parent == null then None
      else parent.FindAtom(k)
    }

    /** The nearest list on the chain. */
    function FindList(k: Key): (l: PyList?)
      requires Linked()
      reads chain`lists
      ensures l != null ==> l in ChainLists()
      decreases chain
    {
      if k in lists then lists[k]
      else if parent == null then null
      else parent.FindList(k)
    }

    /** What `node[k]` shows: immutable entries anywhere on the chain hide lists. */
    function Read(k: Key): Reading
      requires Linked()
      reads chain, ChainLists()
    {
      match FindAtom(k)
      case Some(Value(v)) => Plain(v)
      case Some(Marker) => Missing
      case None => if FindList(k) == null then Missing else Items(FindList(k).items)
    }

    constructor Root()
      ensures parent == null && Linked() && chain == {this} && atoms == map[] && lists == map[]
    {
      parent := null;
      chain := {this};
      atoms, lists := map[], map[];
    }

    constructor Child(p: CowNode)
      requires p.Linked()
      ensures parent == p && Linked() && atoms == map[] && lists == map[]
      ensures chain == {this} + p.chain
    {
      parent := p;
      chain := {this} + p.chain;
      atoms, lists := map[], map[];
    }

    /** `copy`: an empty child. Nothing is copied yet, and the child shows what its parent shows. */
    method Copy(ghost nodes: set<CowNode>) returns (c: CowNode)
      requires Forest(nodes) && this in nodes
      ensures fresh(c) && Forest(nodes + {c}) && c.parent == this && c.chain == {c} + chain
      ensures forall k :: c.Read(k) == Read(k)
    {
      c := new CowNode.Child(this);
      assert c.ChainLists() == ChainLists();
    }

    /** `self[k] = v` for an immutable value, and `del self[k]`, which stores the marker. */
    method SetAtom(k: Key, a: Atom, ghost nodes: set<CowNode>)
      requires Forest(nodes) && this in nodes
      modifies this`atoms
      ensures atoms == old(atoms)[k := a] && Forest(nodes) && Isolated(nodes, this)
      ensures Read(k) == if a.Value? then Plain(a.v) else Missing
      ensures forall j :: j != k ==> Read(j) == old(Read(j))
    {
      atoms := atoms[k := a];
      assert forall j :: FindList(j) == old(FindList(j));
    }

    /**
     `self[k] = l` for a list: read back unless an immutable value or a deletion of the same
     key is visible, in which case nothing seems to have happened.
     */
    method SetList(k: Key, l: PyList, ghost nodes: set<CowNode>)
      requires Forest(nodes) && this in nodes && l.home == this && l.key == k
      modifies this`lists
      ensures lists == old(lists)[k := l] && Forest(nodes) && Isolated(nodes, this)
      ensures Read(k) == if FindAtom(k).None? then Items(l.items) else old(Read(k))
      ensures forall j :: j != k ==> Read(j) == old(Read(j))
    {
      lists := lists[k := l];
      assert forall j :: FindAtom(j) == old(FindAtom(j));
    }

    /** A list stored over a deleted key: it is there, and reading the key still fails. */
    static method ListAfterDeletion(k: Key) returns (n: CowNode, l: PyList)
      ensures n.Linked() && n.Read(k) == Missing && k in n.lists && n.lists[k] == l && l.items == ["x"]
    {
      n := new CowNode.Root();
      n.SetAtom(k, Marker, {n});
      l := new PyList(["x"], n, k);
      n.SetList(k, l, {n});
    }

    /** `self[k]`, or the read-only form that promises not to change the result. */
    method GetItem(k: Key, readonly: bool, ghost nodes: set<CowNode>) returns (r: Got)
      requires Forest(nodes) && this in nodes
      modifies this`lists
      ensures Forest(nodes)
      ensures forall n, j :: n in nodes ==> n.Read(j) == old(n.Read(j))
      ensures atoms == old(atoms) && (readonly || k in old(lists) ==> lists == old(lists))
      ensures forall j :: j != k ==> (j in lists <==> j in old(lists)) && (j in lists ==> lists[j] == old(lists)[j])
      ensures k in lists ==> (k in old(lists) && lists[k] == old(lists)[k]) || fresh(lists[k])
      ensures FindAtom(k) == old(FindAtom(k))
      ensures r.NoSuchKey? <==> Read(k) == Missing
      ensures r.GotAtom? ==> Read(k) == Plain(r.v)
      ensures r.GotList? ==> FindAtom(k).None? && Read(k) == Items(r.l.items) && r.l == FindList(k)
      ensures r.GotList? && !readonly ==> k in lists && lists[k] == r.l && (k in old(lists) || fresh(r.l))
    {
      var a := FindAtom(k);
      var l := FindList(k);
      if a.Some? {
        r := if a.value.Marker? then NoSuchKey else GotAtom(a.value.v);
      } else if l == null {
        r := NoSuchKey;
      } else if readonly || k in lists {
        r := GotList(l);
      } else {
        l := OwnCopy(k, l, nodes);
        r := GotList(l);
      }
    }

    /** `self[k].append(x)` on a list this node holds itself: nobody outside its subtree sees it. */
    method AppendOwn(k: Key, x: string, ghost nodes: set<CowNode>)
      requires Forest(nodes) && this in nodes && k in lists && FindAtom(k).None?
      modifies lists[k]
      ensures Forest(nodes) && Isolated(nodes, this)
      ensures lists[k].items == old(lists[k].items) + [x] && Read(k) == Items(lists[k].items)
      ensures forall j :: j != k ==> Read(j) == old(Read(j))
    {
      forall n, j | n in nodes && n.FindList(j) == lists[k] ensures this in n.chain && j == k {
        FoundIsOwned(n, j);
      }
      lists[k].Append(x);
    }

    /** The first change to an inherited list: from now on this node holds a copy of it. */
    method OwnCopy(k: Key, l: PyList, ghost nodes: set<CowNode>) returns (mine: PyList)
      requires Forest(nodes) && this in nodes
      requires k !in lists && l == FindList(k)
      modifies this`lists
      ensures fresh(mine) && mine.items == l.items && lists == old(lists)[k := mine]
      ensures Forest(nodes)
      ensures forall n, j :: n in nodes ==> n.Read(j) == old(n.Read(j)) && n.FindAtom(j) == old(n.FindAtom(j))
    {
      ghost var before := map n | n in nodes :: n.lists;
      forall n, j | n in nodes ensures n.FindList(j) == FindIn(n, before, j) {
        FindInHeap(n, before, j);
      }
      mine := new PyList(l.items, this, k);
      lists := lists[k := mine];
      ghost var after := before[this := lists];
      forall n, j | n in nodes
        ensures n.FindList(j) == FindIn(n, after, j)
        ensures FindIn(n, after, j) == FindIn(n, before, j) ||
                (j == k && FindIn(n, after, j) == mine && FindIn(n, before, j) == l)
      {
        FindInHeap(n, after, j);
        FindInCopy(n, this, before, k, j, mine);
      }
    }
  }

  /** A list found on a chain is held by a node of that chain, under the key it was looked up by. */
  lemma FoundIsOwned(n: CowNode, k: Key)
    requires n.Linked() && forall m :: m in n.chain ==> m.Owned()
    ensures var l := n.FindList(k); l != null ==> l.home in n.chain && l.key == k
    decreases n.chain
  {
    if k !in n.lists && n.parent != null {
      FoundIsOwned(n.parent, k);
    }
  }

  /** The search of FindList over recorded attributes instead of the present ones. */
  ghost function FindIn(n: CowNode, at: map<CowNode, map<Key, PyList>>, k: Key): PyList?
    requires n.Linked() && n.chain <= at.Keys
    decreases n.chain
  {
    if k in at[n] then at[n][k]
    else if n.parent == null then null
    else FindIn(n.parent, at, k)
  }

  lemma FindInHeap(n: CowNode, at: map<CowNode, map<Key, PyList>>, k: Key)
    requires n.Linked() && n.chain <= at.Keys && forall m :: m in n.chain ==> at[m] == m.lists
    ensures n.FindList(k) == FindIn(n, at, k)
    decreases n.chain
  {
    if n.parent != null {
      FindInHeap(n.parent, at, k);
    }
  }

  /** After c took its own copy of a list, every search finds that copy, or the list it found before. */
  lemma FindInCopy(n: CowNode, c: CowNode, at: map<CowNode, map<Key, PyList>>, k: Key, j: Key, mine: PyList)
    requires n.Linked() && c.Linked() && n.chain <= at.Keys && c.chain <= at.Keys && k !in at[c]
    ensures var after := at[c := at[c][k := mine]];
            || FindIn(n, after, j) == FindIn(n, at, j)
            || (j == k && FindIn(n, after, j) == mine && FindIn(n, at, j) == FindIn(c, at, k))
    decreases n.chain
  {
    if n.parent != null {
      FindInCopy(n.parent, c, at, k, j, mine);
    }
  }

  datatype Got = NoSuchKey | GotAtom(v: string) | GotList(l: PyList)

  /** A set of nodes that holds the parents of its members, and in which no list is held twice. */
  ghost predicate Forest(nodes: set<CowNode>)
    reads nodes
  {
    forall n :: n in nodes ==> n.Linked() && n.chain <= nodes && n.Owned()
  }

  /** Everything the nodes outside c's subtree show is as it was. */
  twostate predicate Isolated(nodes: set<CowNode>, c: CowNode)
    requires old(Forest(nodes)) && Forest(nodes)
    reads nodes, set n, k | n in nodes && k in n.lists :: n.lists[k]
  {
    forall n, k :: n in nodes && c !in n.chain ==> n.Read(k) == old(n.Read(k))
  }

  // ---------- any sequence of operations on one node ----------

  /** AppendItem is a non-readonly get followed by an append to the list it gave; Branch makes a copy. */
  datatype Op = PutAtom(k: Key, v: string) | PutList(k: Key, items: seq<string>) | AppendItem(k: Key, x: string)
      | Remove(k: Key) | Branch

  /** Whatever is done to c, in whatever order, no node outside its subtree can tell. */
  method Perform(c: CowNode, ops: seq<Op>, ghost nodes: set<CowNode>)
    requires Forest(nodes) && c in nodes
    modifies c`atoms, c`lists, set k | k in c.lists :: c.lists[k]
    ensures Forest(nodes)
    ensures forall n, k :: n in nodes && c !in n.chain ==> n.Read(k) == old(n.Read(k))
  {
    ghost var own := set k | k in c.lists :: c.lists[k];
    ghost var all := nodes;
    for i := 0 to |ops|
      invariant nodes <= all && Forest(all) && c in all
      invariant forall k :: k in c.lists ==> c.lists[k] in own || fresh(c.lists[k])
      invariant forall n, k :: n in nodes && c !in n.chain ==> n.Read(k) == old(n.Read(k))
    {
      if ops[i].Branch? {
        var b := c.Copy(all);
        all := all + {b};
      } else {
        PerformOne(c, ops[i], all);
      }
    }
  }

  method PerformOne(c: CowNode, op: Op, ghost nodes: set<CowNode>)
    requires Forest(nodes) && c in nodes && !op.Branch?
    modifies c`atoms, c`lists, set k | k in c.lists :: c.lists[k]
    ensures Forest(nodes) && Isolated(nodes, c)
    ensures forall k :: k in c.lists ==> (k in old(c.lists) && c.lists[k] == old(c.lists)[k]) || fresh(c.lists[k])
  {
    match op
    case PutAtom(k, v) =>
      c.SetAtom(k, Value(v), nodes);
    case Remove(k) =>
      c.SetAtom(k, Marker, nodes);
    case PutList(k, items) =>
      var l := new PyList(items, c, k);
      c.SetList(k, l, nodes);
    case AppendItem(k, x) =>
      var r := c.GetItem(k, false, nodes);
      if r.GotList? {
        c.AppendOwn(k, x, nodes);
      }
  }

  // ---------- a user of the dictionary ----------

  /** The record of operations on each variable, kept in a dictionary that is copied with the datastore. */
  class VariableHistory {
    const variables: CowNode
    var tracking: bool

    constructor (variables: CowNode, tracking: bool)
      ensures this.variables == variables && this.tracking == tracking
    {
      this.variables, this.tracking := variables, tracking;
    }

    /** `copy`: the child's records are this one's until the child adds to them. */
    method Copy(ghost nodes: set<CowNode>) returns (h: VariableHistory)
      requires Forest(nodes) && variables in nodes
      ensures fresh(h) && fresh(h.variables) && h.variables.parent == variables && h.tracking == tracking
      ensures Forest(nodes + {h.variables})
      ensures forall k :: h.variables.Read(k) == variables.Read(k)
    {
      var c := variables.Copy(nodes);
      label Copied:
      h := new VariableHistory(c, tracking);
      assert forall k :: c.FindAtom(k) == old@Copied(c.FindAtom(k)) && c.FindList(k) == old@Copied(c.FindList(k));
      assert forall k ::
             variables.FindAtom(k) == old@Copied(variables.FindAtom(k)) &&
             variables.FindList(k) == old@Copied(variables.FindList(k));
      forall k ensures h.variables.Read(k) == variables.Read(k) {
        assert old@Copied(c.Read(k)) == old@Copied(variables.Read(k));
      }
    }

    /**
     Add one operation to a variable's record (unless an equal one is there and duplicates
     are unwanted). No other history sees it, though their lists may have been shared. A name
     that stands for something other than a list is left alone; one whose record was deleted
     raises KeyError.
     */
    method Record(name: Key, info: string, nodups: bool, ghost nodes: set<CowNode>) returns (keyError: bool)
      requires Forest(nodes) && variables in nodes
      modifies variables`lists, set k | k in variables.lists :: variables.lists[k]
      ensures Forest(nodes) && Isolated(nodes, variables)
      ensures keyError <==> tracking && old(variables.FindAtom(name)) == Some(Marker)
      ensures variables.Read(name) ==
              if tracking && old(variables.FindAtom(name)).None? then
                  Items(Added(Recorded(old(variables.Read(name))), info, nodups))
              else old(variables.Read(name))
      ensures forall j :: j != name ==> variables.Read(j) == old(variables.Read(j))
    {
      if !tracking {
        return false;
      }
      hide CowNode.Read;
      Prepare(name, nodes);
      var r := variables.GetItem(name, false, nodes);
      if !r.GotList? {
        return r.NoSuchKey?;
      }
      if nodups && info in r.l.items {
        return false;
      }
      variables.AppendOwn(name, info, nodes);
      return false;
    }

    /** A variable without a record gets an empty one. */
    method Prepare(name: Key, ghost nodes: set<CowNode>)
      requires Forest(nodes) && variables in nodes
      modifies variables`lists
      ensures Forest(nodes) && Isolated(nodes, variables)
      ensures forall k ::
              k in variables.lists &&
              !(k in old(variables.lists) && variables.lists[k] == old(variables.lists)[k]) ==>
              fresh(variables.lists[k])
      ensures variables.FindAtom(name) == old(variables.FindAtom(name))
      ensures variables.Read(name) ==
              if old(variables.FindAtom(name)).None? then Items(Recorded(old(variables.Read(name))))
              else old(variables.Read(name))
      ensures forall j :: j != name ==> variables.Read(j) == old(variables.Read(j))
    {
      var r := variables.GetItem(name, true, nodes);
      if r.NoSuchKey? {
        var l := new PyList([], variables, name);
        variables.SetList(name, l, nodes);
      }
    }
  }

  function Added(was: seq<string>, info: string, nodups: bool): seq<string> {
    if nodups && info in was then was else was + [info]
  }

  /** The info is recorded last; twice only if that is wanted. */
  lemma RecordedOnce(was: seq<string>, info: string, nodups: bool)
    ensures var now := Added(was, info, nodups);
            && was <= now && info in now && |now| <= |was| + 1
            && (!nodups || info !in was ==> now[|was|..] == [info])
            && (nodups && NoDup(was) ==> NoDup(now))
  {
    if nodups && info !in was {
      assert NoDup(was) ==> NoDup(was + [info]);
    }
  }

  function Recorded(r: Reading): seq<string> {
    if r.Items? then r.items else []
  }
}
