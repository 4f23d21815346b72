/**
 The layered variable store: a copy reads through to the store it was copied from, and every
 write goes to dictionaries and lists of its own.
 */
module DataSmart {
  import opened Collections
  import opened Strings
  import opened OverrideResolution
  import opened VariableView
  import opened Renaming

  /** The dictionary of one variable in one store. */
  class FlagDict {
    var f: Flags
    ghost const home: DataSmart
    ghost const key: Var

    constructor (f: Flags, ghost home: DataSmart, ghost key: Var)
      ensures this.f == f && this.home == home && this.key == key
    {
      this.f, this.home, this.key := f, home, key;
    }
  }

  /** The names that override one name; a list may be held by several stores. */
  class OverrideList {
    var items: seq<Pair>
    ghost const key: Var

    constructor (items: seq<Pair>, ghost key: Var)
      ensures this.items == items && this.key == key
    {
      this.items, this.key := items, key;
    }
  }

  class DataSmart {
    const parent: DataSmart?
    ghost const chain: set<DataSmart>        // this store and those it was copied from
    var dict: map<Var, FlagDict>
    var overridedata: map<Var, OverrideList>

    ghost predicate Linked()
      decreases chain
    {
      && this in chain
      && (if parent == null then chain == {this}
          else this !in parent.chain && chain == {this} + parent.chain && parent.Linked())
    }

    /** Its dictionaries are its own; its lists may be others' too, under the same name. */
    ghost predicate Owned()
      reads this`dict, this`overridedata
    {
      && (forall v :: v in dict ==> dict[v].home == this && dict[v].key == v)
      && (forall v :: v in overridedata ==> overridedata[v].key == v)
    }

    ghost function Dicts(): set<FlagDict>
      reads this`dict
    {
      set v | v in dict :: dict[v]
    }

    ghost function ChainDicts(): set<FlagDict>
      reads chain`dict
    {
      set n, v | n in chain && v in n.dict :: n.dict[v]
    }

    ghost function Own(): map<Var, Flags>
      reads this`dict, Dicts()`f
    {
      map v | v in dict :: dict[v].f
    }

    /** All that look-ups show, as one dictionary: what a store holds covers what is further down. */
    ghost function Shown(): map<Var, Flags>
      requires Linked()
      reads chain`dict, ChainDicts()`f
      decreases chain
    {
      (if parent == null then map[] else parent.Shown()) + Own()
    }

    ghost function Lists(): set<OverrideList>
      reads this`overridedata
    {
      set v | v in overridedata :: overridedata[v]
    }

    ghost function Overrides(): Table
      reads this`overridedata, Lists()`items
    {
      map v | v in overridedata :: overridedata[v].items
    }

    ghost function ToView(): View
      requires Linked()
      reads chain`dict, ChainDicts()`f, this`overridedata, Lists()`items
    {
      View(Shown(), Overrides())
    }

    constructor Root()
      ensures parent == null && Linked() && chain == {this} && dict == map[] && overridedata == map[]
    {
      parent := null;
      chain := {this};
      dict, overridedata := map[], map[];
    }

    constructor Child(p: DataSmart)
      requires p.Linked()
      ensures parent == p && Linked() && chain == {this} + p.chain
      ensures dict == map[] && overridedata == p.overridedata
    {
      parent := p;
      chain := {this} + p.chain;
      dict := map[];
      overridedata := p.overridedata;
    }

    /** A copy shares everything until it is written to: even the lists of the override table. */
    method CreateCopy(ghost nodes: set<DataSmart>) returns (c: DataSmart)
      requires Forest(nodes) && this in nodes
      ensures fresh(c) && Forest(nodes + {c}) && c.parent == this && c.chain == {c} + chain
      ensures c.ToView() == ToView() && c.dict == map[]
    {
      c := new DataSmart.Child(this);
    }

    /** `_findVar`: walking down the chain finds what the one dictionary of all that is shown holds. */
    method FindVar(v: Var, ghost nodes: set<DataSmart>) returns (d: FlagDict?)
      requires Forest(nodes) && this in nodes
      ensures Forest(nodes) && forall n :: n in nodes ==> n.ToView() == old(n.ToView())
      ensures d == null <==> v !in Shown()
      ensures d != null ==> d.f == Shown()[v]
      ensures v in dict ==> d == dict[v]
    {
      var dest: DataSmart := this;
      while v !in dest.dict
        invariant dest.Linked() && dest.chain <= chain
        invariant v in Shown() <==> v in dest.Shown()
        invariant v in Shown() ==> Shown()[v] == dest.Shown()[v]
        invariant v in dict ==> dest == this
        decreases dest.chain
      {
        if dest.parent == null {
          return null;
        }
        dest := dest.parent;
      }
      d := dest.dict[v];
    }

    method NewDict(v: Var, f: Flags, ghost nodes: set<DataSmart>) returns (d: FlagDict)
      requires Forest(nodes)
      ensures fresh(d) && d.f == f && d.home == this && d.key == v && Forest(nodes)
      ensures forall n :: n in nodes ==> n.ToView() == old(n.ToView())
    {
      d := new FlagDict(f, this, v);
      forall n | n in nodes ensures n.ToView() == old(n.ToView()) {
        assert forall e :: e in old(n.ChainDicts()) ==> old(allocated(e)) && e.f == old(e.f);
        assert n.ChainDicts() == old(n.ChainDicts());
      }
    }

    method NewList(items: seq<Pair>, ghost s: Var, ghost nodes: set<DataSmart>) returns (l: OverrideList)
      requires Forest(nodes)
      ensures fresh(l) && l.items == items && l.key == s && Forest(nodes)
      ensures forall n :: n in nodes ==> n.ToView() == old(n.ToView())
    {
      l := new OverrideList(items, s);
      forall n | n in nodes ensures n.ToView() == old(n.ToView()) {
        assert forall e :: e in old(n.ChainDicts()) ==> old(allocated(e)) && e.f == old(e.f);
        assert n.ChainDicts() == old(n.ChainDicts());
      }
    }

    /** A new dictionary for the variable, of this store's own. */
    method Install(v: Var, f: Flags, ghost nodes: set<DataSmart>)
      requires Forest(nodes) && this in nodes
      modifies this`dict
      ensures Forest(nodes) && v in dict && fresh(dict[v]) && dict == old(dict)[v := dict[v]] && dict[v].f == f
      ensures Shown() == old(Shown())[v := f] && Overrides() == old(Overrides())
      ensures Isolated(nodes, this)
    {
      var d := NewDict(v, f, nodes);
      Attach(v, d, nodes);
    }

    method Attach(v: Var, d: FlagDict, ghost nodes: set<DataSmart>)
      requires Forest(nodes) && this in nodes && d.home == this && d.key == v
      modifies this`dict
      ensures Forest(nodes) && dict == old(dict)[v := d]
      ensures Shown() == old(Shown())[v := d.f]
      ensures Isolated(nodes, this)
    {
      OverBelow(d.f, v);
      ghost var below := if parent == null then map[] else parent.Shown();
      dict := dict[v := d];
      assert parent != null ==> parent.Shown() == below;
      assert Own() == old(Own())[v := d.f];
    }

    lemma OverBelow(f: Flags, v: Var)
      requires Linked()
      ensures var below := if parent == null then map[] else parent.Shown();
              Shown() == below + Own() && below + Own()[v := f] == Shown()[v := f]
    {
      MergePush(if parent == null then map[] else parent.Shown(), Own(), v, f);
    }

    /** A store into the dictionary this store has for the variable. */
    method Write(v: Var, f: Flags, ghost nodes: set<DataSmart>)
      requires Forest(nodes) && this in nodes && v in dict
      modifies {dict[v]}`f
      ensures Forest(nodes) && dict[v].f == f
      ensures Shown() == old(Shown())[v := f] && Overrides() == old(Overrides())
      ensures Isolated(nodes, this)
    {
      DictIsOwn(v, nodes);
      OverBelow(f, v);
      hide DataSmart.Shown, DataSmart.Overrides, DataSmart.Linked, DataSmart.Owned, DataSmart.ChainDicts;
      ghost var below := if parent == null then map[] else parent.Shown();
      dict[v].f := f;
      assert parent != null ==> parent.Shown() == below;
      assert Own() == old(Own())[v := f];
      OverBelow(f, v);
    }

    /** No store that does not read through to this one has this dictionary, and this one has it once. */
    lemma DictIsOwn(v: Var, nodes: set<DataSmart>)
      requires Forest(nodes) && this in nodes && v in dict
      ensures forall n :: n in nodes && this !in n.chain ==> dict[v] !in n.ChainDicts()
      ensures forall w :: w in dict && w != v ==> dict[w] != dict[v]
      ensures parent != null ==> parent.Linked() && dict[v] !in parent.ChainDicts()
    {
    }

    // ---------- the override table ----------

    /** The lists this store has now it had before, or made since. */
    twostate predicate ListsOldOrNew()
      reads this`overridedata
    {
      forall l :: l in Lists() && !fresh(l) ==> l in old(Lists())
    }

    /** The list is made anew before it is added to: it may be shared with other stores. */
    method ListOverride(s: Var, p: Pair, ghost nodes: set<DataSmart>)
      requires Forest(nodes) && this in nodes
      modifies this`overridedata
      ensures Forest(nodes) && Isolated(nodes, this) && Shown() == old(Shown()) && ListsOldOrNew()
      ensures Overrides() == Listed(old(Overrides()), s, p)
    {
      OwnListed(s);
      hide DataSmart.Shown, DataSmart.Overrides, DataSmart.Linked, DataSmart.Owned, DataSmart.Lists, Exclusive, Listing;
      if s !in overridedata {
        Relist(s, [], nodes);
        OwnListed(s);
      }
      ListingCases(Overrides(), s, p);
      if p !in overridedata[s].items {
        Relist(s, overridedata[s].items, nodes);
        OwnListed(s);
        StoreOwn(s, overridedata[s].items + [p], nodes);
      }
    }

    /** `list.remove`, also on a list made anew; a name without a list, or without this pair, is passed over. */
    method UnlistOverride(s: Var, p: Pair, ghost nodes: set<DataSmart>)
      requires Forest(nodes) && this in nodes
      modifies this`overridedata
      ensures Forest(nodes) && Isolated(nodes, this) && Shown() == old(Shown()) && ListsOldOrNew()
      ensures Overrides() == Unlisted(old(Overrides()), s, p)
    {
      if s in overridedata {
        var items := overridedata[s].items;
        Relist(s, items, nodes);
        StoreOwn(s, if p in items then RemoveFirst(items, p) else items, nodes);
      }
    }

    /** `_setvar_update_overrides`: every name that v overrides lists it. */
    method UpdateOverrides(v: Var, ghost nodes: set<DataSmart>)
      requires Forest(nodes) && this in nodes
      modifies this`overridedata
      ensures Forest(nodes) && Isolated(nodes, this) && Shown() == old(Shown()) && ListsOldOrNew()
      ensures Overrides() == Registered(old(Overrides()), v)
    {
      assert Linked();
      hide DataSmart.Shown, DataSmart.Overrides, DataSmart.ToView, DataSmart.Linked, DataSmart.Owned, DataSmart.Lists;
      hide AtPiece, Registered, RegisteredDownTo, LooksLikeOverride, FirstPiece, NextPiece, Progress, Listed;
      ghost var was := Overrides();
      var (override, short) := FirstPiece(v);
      ghost var lo: nat := Progress(override, short, |v|);
      RegisteredStart(was, v);
      while override != "" && LooksLikeOverride(override)
        invariant Forest(nodes) && Isolated(nodes, this) && Shown() == old(Shown()) && ListsOldOrNew()
        invariant lo <= |v| && (override != "" ==> |short| < |v|)
        invariant AtPiece(v, override, short, lo, LooksLikeOverride) && Overrides() == RegisteredDownTo(was, v, lo)
        decreases lo
      {
        RegisteredNext(was, v, override, short, lo);
        ListOverride(short, (v, override), nodes);
        ghost var done := |short|;
        override, short := NextPiece(v, short).0, NextPiece(v, short).1;
        lo := Progress(override, short, done);
      }
      RegisteredEnd(was, v, override, short, lo);
    }

    /** The end of `delVar`: names that v overrides stop listing it, down to one that it may still override. */
    method ForgetOverrides(v: Var, ghost nodes: set<DataSmart>)
      requires Forest(nodes) && this in nodes && ':' in v
      modifies this`overridedata
      ensures Forest(nodes) && Isolated(nodes, this) && Shown() == old(Shown()) && ListsOldOrNew()
      ensures Overrides() == Unregistered(old(Overrides()), v)
    {
      assert Linked();
      hide DataSmart.Shown, DataSmart.Overrides, DataSmart.ToView, DataSmart.Linked, DataSmart.Owned;
      hide AtPiece, Unregistered, UnregisteredDownTo, IsLower, FirstPiece, NextPiece, Progress, Unlisted;
      ghost var was := Overrides();
      var (override, short) := FirstPiece(v);
      ghost var lo: nat := Progress(override, short, |v|);
      UnregisteredStart(was, v);
      while override != "" && IsLower(override)
        invariant Forest(nodes) && Isolated(nodes, this) && Shown() == old(Shown()) && ListsOldOrNew()
        invariant lo <= |v| && (override != "" ==> |short| < |v|)
        invariant AtPiece(v, override, short, lo, IsLower) && Overrides() == UnregisteredDownTo(was, v, lo)
        decreases lo
      {
        UnregisteredNext(was, v, override, short, lo);
        UnlistOverride(short, (v, override), nodes);
        ghost var done := |short|;
        override, short := NextPiece(v, short).0, NextPiece(v, short).1;
        lo := Progress(override, short, done);
      }
      UnregisteredEnd(was, v, override, short, lo);
    }

    method DropList(v: Var, ghost nodes: set<DataSmart>)
      requires Forest(nodes) && this in nodes
      modifies this`overridedata
      ensures Forest(nodes) && Isolated(nodes, this) && Shown() == old(Shown()) && ListsOldOrNew()
      ensures Overrides() == old(Overrides()) - {v}
    {
      overridedata := overridedata - {v};
    }

    // ---------- writes ----------

    /** What the store holds now it held before, or made since. */
    twostate predicate OldOrNew()
      reads this`dict
    {
      forall v :: v in dict ==> (v in old(dict) && dict[v] == old(dict)[v]) || fresh(dict[v])
    }

    /** From now on this store has a dictionary of its own for the variable. */
    method MakeShadowCopy(v: Var, ghost nodes: set<DataSmart>)
      requires Forest(nodes) && this in nodes
      modifies this`dict
      ensures Forest(nodes) && Isolated(nodes, this) && OldOrNew()
      ensures v in dict && dict[v].f == old(ToView()).FlagsOf(v)
      ensures Shown() == old(Shown())[v := dict[v].f] && Overrides() == old(Overrides())
    {
      if v in dict {
        OwnShown(v);
        return;
      }
      hide DataSmart.Shown, DataSmart.Overrides, DataSmart.Linked, DataSmart.Owned;
      var local := FindVar(v, nodes);
      if local != null && local.f != NO_FLAGS {
        Install(v, local.f, nodes);
      } else {
        Install(v, NO_FLAGS, nodes);
      }
    }

    lemma OwnListed(v: Var)
      ensures v in overridedata <==> v in Overrides()
      ensures v in overridedata ==> Overrides()[v] == overridedata[v].items
    {
    }

    lemma OwnShown(v: Var)
      requires Linked() && v in dict
      ensures v in Shown() && Shown()[v] == dict[v].f && Shown() == Shown()[v := dict[v].f]
    {
    }

    /** Under an operator, a flag holds a list: `SetOps` sets that. */
    method SetVarFlag(v: Var, flag: string, value: string, ghost nodes: set<DataSmart>)
      requires Forest(nodes) && this in nodes && !IsOperator(flag)
      modifies this`dict, this`overridedata, Dicts()`f
      ensures Forest(nodes) && Isolated(nodes, this) && OldOrNew() && ListsOldOrNew()
      ensures ToView() == WithFlag(old(ToView()), v, flag, value)
    {
      hide Registered, DataSmart.Shown, DataSmart.Overrides, DataSmart.Linked, DataSmart.Owned, DataSmart.Lists,
          DataSmart.ChainDicts;
      MakeShadowCopy(v, nodes);
      Write(v, dict[v].f.(plain := dict[v].f.plain[flag := value]), nodes);
      if flag == DEFAULTVAL && ':' in v {
        UpdateOverrides(v, nodes);
      }
    }

    method SetOps(v: Var, k: Kind, ops: seq<Deferred>, ghost nodes: set<DataSmart>)
      requires Forest(nodes) && this in nodes
      modifies this`dict, Dicts()`f
      ensures Forest(nodes) && Isolated(nodes, this) && OldOrNew()
      ensures ToView() == WithOps(old(ToView()), v, k, ops)
    {
      hide DataSmart.Shown, DataSmart.Overrides;
      MakeShadowCopy(v, nodes);
      Write(v, dict[v].f.(later := dict[v].f.later[k := ops]), nodes);
    }

    method DelVarFlag(v: Var, flag: string, ghost nodes: set<DataSmart>)
      requires Forest(nodes) && this in nodes
      modifies this`dict, Dicts()`f
      ensures Forest(nodes) && Isolated(nodes, this) && OldOrNew()
      ensures ToView() == WithoutFlag(old(ToView()), v, flag)
    {
      hide DataSmart.Shown, DataSmart.Overrides, DataSmart.Linked, DataSmart.Owned;
      var local := FindVar(v, nodes);
      if local == null || local.f == NO_FLAGS {
        return;
      }
      MakeShadowCopy(v, nodes);
      if flag in dict[v].f.plain || exists k :: k in dict[v].f.later && Keyword(k) == flag {
        Write(v, Dropped(dict[v].f, flag), nodes);
      } else {
        NothingDropped(dict[v].f, flag);
      }
    }

    method DelVar(v: Var, ghost nodes: set<DataSmart>)
      requires Forest(nodes) && this in nodes
      modifies this`dict, this`overridedata
      ensures Forest(nodes) && Isolated(nodes, this) && OldOrNew() && ListsOldOrNew()
      ensures forall w :: w in old(dict) ==> w in dict
      ensures ToView() == Deleted(old(ToView()), v)
    {
      hide DataSmart.Shown, DataSmart.Overrides, DataSmart.Linked, DataSmart.Owned;
      Install(v, NO_FLAGS, nodes);
      DropList(v, nodes);
      if ':' in v {
        ForgetOverrides(v, nodes);
      }
    }

    method DelAll(vs: seq<Var>, ghost nodes: set<DataSmart>)
      requires Forest(nodes) && this in nodes
      modifies this`dict, this`overridedata
      ensures Forest(nodes) && Isolated(nodes, this) && OldOrNew() && ListsOldOrNew()
      ensures forall w :: w in old(dict) ==> w in dict
      ensures ToView() == AllDeleted(old(ToView()), vs)
    {
      hide DataSmart.Shown, DataSmart.Overrides, DataSmart.Linked, DataSmart.Owned, Deleted;
      for i := 0 to |vs|
        invariant Forest(nodes) && Isolated(nodes, this) && OldOrNew() && ListsOldOrNew()
        invariant forall w :: w in old(dict) ==> w in dict
        invariant AllDeleted(ToView(), vs[i..]) == AllDeleted(old(ToView()), vs)
      {
        assert vs[i..][1..] == vs[i + 1..];
        DelVar(vs[i], nodes);
      }
    }

    /** The names with active overrides are deleted, then the list of all that override v. */
    method ClearOverriders(v: Var, ovs: seq<string>, ghost nodes: set<DataSmart>)
      requires Forest(nodes) && this in nodes && v in dict && v in overridedata && Nested(Overrides())
      modifies this`dict, this`overridedata
      ensures Forest(nodes) && Isolated(nodes, this) && OldOrNew() && ListsOldOrNew() && v in dict
      ensures var d := AllDeleted(old(ToView()), ActiveNames(old(overridedata[v].items), ovs));
              ToView() == d.(table := d.table - {v})
    {
      hide DataSmart.Shown, DataSmart.Overrides, DataSmart.Owned, DataSmart.ChainDicts, DataSmart.Lists,
          DataSmart.Linked, AllDeleted;
      var active := ActiveNames(overridedata[v].items, ovs);
      ClearableList(v, active, ovs);
      DelAll(active, nodes);
      OwnListed(v);
      assert v in overridedata;
      DropList(v, nodes);
    }

    /** None of the names deleted is v itself, so that there is a list left to delete. */
    lemma ClearableList(v: Var, active: seq<Var>, ovs: seq<string>)
      requires Linked() && v in overridedata && Nested(Overrides()) && active == ActiveNames(overridedata[v].items, ovs)
      ensures v in AllDeleted(ToView(), active).table
    {
      OwnListed(v);
      ActiveNamesListed(overridedata[v].items, ovs);
      AllDeletedKeepsList(ToView(), active, v);
    }

    /** What setting a value outside parsing drops first. */
    method Clear(v: Var, ovs: seq<string>, ghost nodes: set<DataSmart>)
      requires Forest(nodes) && this in nodes && v in dict && Nested(Overrides())
      modifies this`dict, this`overridedata, {dict[v]}`f
      ensures Forest(nodes) && Isolated(nodes, this) && OldOrNew() && ListsOldOrNew() && v in dict
      ensures ToView() == Cleared(old(ToView()), v, ovs)
    {
      OwnShown(v);
      OwnListed(v);
      hide DataSmart.Shown, DataSmart.Overrides, DataSmart.Owned, DataSmart.ChainDicts, DataSmart.Lists,
          DataSmart.Linked, AllDeleted;
      Write(v, dict[v].f.(later := map[]), nodes);
      if v in overridedata {
        ClearOverriders(v, ovs, nodes);
      }
    }

    /** `setVar` of a name without an operator. */
    method SetValue(v: Var, value: string, parsing: bool, ovs: seq<string>, ghost nodes: set<DataSmart>)
      requires Forest(nodes) && this in nodes && (parsing || Nested(Overrides()))
      modifies this`dict, this`overridedata, Dicts()`f
      ensures Forest(nodes) && Isolated(nodes, this) && OldOrNew() && ListsOldOrNew()
      ensures ToView() == WithValue(old(ToView()), v, value, parsing, ovs)
    {
      hide DataSmart.Shown, DataSmart.Overrides, DataSmart.Owned, DataSmart.ChainDicts, DataSmart.Lists,
          DataSmart.Linked, Cleared, Registered;
      ClearedShadow(ToView(), v, ovs);
      MakeShadowCopy(v, nodes);
      if !parsing {
        Clear(v, ovs, nodes);
      }
      if ':' in v {
        UpdateOverrides(v, nodes);
      }
      OwnShown(v);
      Write(v, dict[v].f.(plain := dict[v].f.plain[CONTENT := value]), nodes);
    }

    /** `setVar` of a name with an operator: the list is copied, added to, and stored with the base. */
    method Defer(p: Parsed, value: string, ghost nodes: set<DataSmart>)
      requires Forest(nodes) && this in nodes
      modifies this`dict, this`overridedata, Dicts()`f
      ensures Forest(nodes) && Isolated(nodes, this) && OldOrNew() && ListsOldOrNew()
      ensures ToView() == WithDeferred(old(ToView()), p.base, p.kind, Deferred(value, p.only))
    {
      hide DataSmart.Shown, DataSmart.Overrides, DataSmart.Linked, DataSmart.Owned, Registered;
      MakeShadowCopy(p.base, nodes);
      var f := dict[p.base].f;
      Write(p.base, f.(later := f.later[p.kind := f.Ops(p.kind) + [Deferred(value, p.only)]]), nodes);
      UpdateOverrides(p.base, nodes);
    }

    /** The operators of the old syntax end the build. */
    method SetVar(v: Var, value: string, parsing: bool, ovs: seq<string>, ghost nodes: set<DataSmart>)
        returns (fatal: bool)
      requires Forest(nodes) && this in nodes && (parsing || Nested(Overrides()))
      modifies this`dict, this`overridedata, Dicts()`f
      ensures Forest(nodes) && Isolated(nodes, this) && OldOrNew() && ListsOldOrNew()
      ensures fatal <==> OldSyntax(v)
      ensures ToView() == if fatal then old(ToView()) else Assigned(old(ToView()), v, value, parsing, ovs)
    {
      if OldSyntax(v) {
        return true;
      }
      match ParseKeyword(v)
      case Some(p) =>
        Defer(p, value, nodes);
        return false;
      case None =>
        SetValue(v, value, parsing, ovs, nodes);
        return false;
    }

    /** `appendVar` and `prependVar` are written as settings of a name with an operator. */
    method AppendVar(v: Var, value: string, ovs: seq<string>, ghost nodes: set<DataSmart>) returns (fatal: bool)
      requires Forest(nodes) && this in nodes
      modifies this`dict, this`overridedata, Dicts()`f
      ensures Forest(nodes) && Isolated(nodes, this) && OldOrNew()
      ensures fatal <==> OldSyntax(v + ":append")
      ensures ToView() == if fatal then old(ToView()) else Assigned(old(ToView()), v + ":append", value, true, ovs)
    {
      fatal := SetVar(v + ":append", value, true, ovs, nodes);
    }

    method PrependVar(v: Var, value: string, ovs: seq<string>, ghost nodes: set<DataSmart>) returns (fatal: bool)
      requires Forest(nodes) && this in nodes
      modifies this`dict, this`overridedata, Dicts()`f
      ensures Forest(nodes) && Isolated(nodes, this) && OldOrNew()
      ensures fatal <==> OldSyntax(v + ":prepend")
      ensures ToView() == if fatal then old(ToView()) else Assigned(old(ToView()), v + ":prepend", value, true, ovs)
    {
      fatal := SetVar(v + ":prepend", value, true, ovs, nodes);
    }

    // ---------- renaming ----------

    /** The kinds in the order of a dictionary. */
    method EnumerateKinds(kinds: set<Kind>, ghost nodes: set<DataSmart>) returns (order: seq<Kind>)
      requires Forest(nodes)
      ensures NoDup(order) && Elems(order) == kinds && Forest(nodes)
      ensures forall n :: n in nodes ==> n.ToView() == old(n.ToView())
    {
      order := Enumerate(kinds);
      forall n | n in nodes ensures n.ToView() == old(n.ToView()) {
        assert forall e :: e in old(n.ChainDicts()) ==> old(allocated(e)) && e.f == old(e.f);
        assert n.ChainDicts() == old(n.ChainDicts());
      }
    }

    method CarryOp(newkey: Var, k: Kind, ops: seq<Deferred>, ghost nodes: set<DataSmart>)
      requires Forest(nodes) && this in nodes
      modifies this`dict, Dicts()`f
      ensures Forest(nodes) && Isolated(nodes, this) && OldOrNew()
      ensures ToView() == WithOps(old(ToView()), newkey, k, old(ToView()).FlagsOf(newkey).Ops(k) + ops)
    {
      hide DataSmart.Shown, DataSmart.Overrides, DataSmart.Linked, DataSmart.Owned, WithOps;
      var mine := FindVar(newkey, nodes);
      SetOps(newkey, k, (if mine == null then [] else mine.f.Ops(k)) + ops, nodes);
    }

    /** `renameVar` reads the flags of key, and puts the lists under the operators behind those of newkey. */
    method CarryOps(newkey: Var, more: map<Kind, seq<Deferred>>, ghost nodes: set<DataSmart>)
      requires Forest(nodes) && this in nodes
      modifies this`dict, Dicts()`f
      ensures Forest(nodes) && Isolated(nodes, this) && OldOrNew()
      ensures ToView() == WithMoreOps(old(ToView()), newkey, more)
    {
      hide DataSmart.Shown, DataSmart.Overrides, DataSmart.Linked, DataSmart.Owned, DataSmart.ToView, WithMoreOps,
          WithOps;
      var kinds := EnumerateKinds(more.Keys, nodes);
      NoMoreOps(ToView(), newkey, more);
      assert kinds[..0] == [];
      for i := 0 to |kinds|
        invariant Forest(nodes) && Isolated(nodes, this) && OldOrNew()
        invariant ToView() == WithMoreOps(old(ToView()), newkey, Part(more, kinds[..i]))
      {
        OneMoreOp(old(ToView()), newkey, more, kinds[..i], kinds[i]);
        assert kinds[..i + 1] == kinds[..i] + [kinds[i]];
        CarryOp(newkey, kinds[i], more[kinds[i]], nodes);
      }
      assert kinds[..|kinds|] == kinds;
      AllParts(more, kinds);
    }

    /** The first half of `renameVar`: key's value and what is deferred on it are given to newkey. */
    method Carry(key: Var, newkey: Var, value: Option<string>, ghost nodes: set<DataSmart>)
      requires Forest(nodes) && this in nodes
      requires value == Local(ToView().FlagsOf(key), false) && (value.Some? ==> !OldSyntax(newkey))
      modifies this`dict, this`overridedata, Dicts()`f
      ensures Forest(nodes) && Isolated(nodes, this) && OldOrNew() && ListsOldOrNew()
      ensures ToView() == Carried(old(ToView()), key, newkey)
    {
      hide DataSmart.Shown, DataSmart.Overrides, DataSmart.Linked, DataSmart.Owned, Assigned, Local, WithMoreOps;
      if value.Some? {
        var fatal := SetVar(newkey, value.value, true, [], nodes);
      }
      var source := FindVar(key, nodes);
      CarryOps(newkey, if source == null then map[] else source.f.later, nodes);
    }

    /** `append` on the list itself: nothing else can refer to it, as it was made in this call. */
    method AppendOwn(s: Var, p: Pair, ghost nodes: set<DataSmart>)
      requires Forest(nodes) && this in nodes && Exclusive(nodes, s)
      modifies overridedata[s]
      ensures Forest(nodes) && Isolated(nodes, this)
      ensures s in old(ToView()).table && ToView() == WithPair(old(ToView()), s, p)
    {
      OwnListed(s);
      hide DataSmart.Shown, DataSmart.Overrides, DataSmart.Linked, DataSmart.Owned;
      StoreOwn(s, overridedata[s].items + [p], nodes);
    }

    /** A list made in this call is held by no other store, and here under its own name only. */
    twostate lemma OwnExclusive(s: Var, new nodes: set<DataSmart>)
      requires Forest(nodes) && this in nodes && s in overridedata && fresh(overridedata[s])
      requires forall n :: n in nodes && n != this ==> old(allocated(n)) && n.overridedata == old(n.overridedata)
      ensures Exclusive(nodes, s)
    {
    }

    lemma OnlyList(s: Var)
      requires Owned()
      ensures forall l :: l in Lists() && l.key == s ==> s in overridedata && l == overridedata[s]
      ensures s in overridedata ==> overridedata[s] in Lists() && overridedata[s].key == s
    {
    }

    /** One turn of the loop: what is left as newkey's list is the one there was, or one made since. */
    method RenameNext(p: Pair, key: Var, newkey: Var, depth: nat, ghost nodes: set<DataSmart>) returns (end: End)
      requires Forest(nodes) && this in nodes && depth > 0 && Exclusive(nodes, newkey)
      modifies this`dict, this`overridedata, Dicts()`f, overridedata[newkey]
      ensures Forest(nodes) && Isolated(nodes, this) && OldOrNew() && ListsOldOrNew()
      ensures newkey in overridedata ==>
              overridedata[newkey] == old(overridedata[newkey]) || fresh(overridedata[newkey])
      ensures var v := Replaced(p.0, key, newkey);
              newkey in old(ToView()).table &&
                  (ToView(), end) == Renamed(WithPair(old(ToView()), newkey, (v, p.1)), p.0, v, depth - 1)
      decreases depth, 0
    {
      hide DataSmart.Shown, DataSmart.Overrides, DataSmart.Linked, DataSmart.Owned, DataSmart.Lists, Renamed, Replaced;
      var v := Replaced(p.0, key, newkey);
      AppendOwn(newkey, (v, p.1), nodes);
      OnlyList(newkey);
      end := RenameVar(p.0, v, depth - 1, nodes);
      OnlyList(newkey);
    }

    /** The loop over the list of key, while that of newkey grows. */
    method RenameOverriders(key: Var, newkey: Var, list: OverrideList, depth: nat, ghost nodes: set<DataSmart>)
        returns (end: End)
      requires Forest(nodes) && this in nodes && depth > 0
      modifies this`dict, this`overridedata, Dicts()`f
      ensures Forest(nodes) && Isolated(nodes, this) && OldOrNew() && ListsOldOrNew()
      ensures (ToView(), end) == AllRenamed(Emptied(old(ToView()), newkey), key, newkey, old(list.items), depth)
      decreases depth, 1
    {
      hide DataSmart.Shown, DataSmart.Overrides, DataSmart.Linked, DataSmart.Owned, DataSmart.Lists, Renamed, Replaced;
      Relist(newkey, [], nodes);
      ghost var goal := AllRenamed(Emptied(old(ToView()), newkey), key, newkey, old(list.items), depth);
      for i := 0 to |list.items|
        invariant Forest(nodes) && Isolated(nodes, this) && OldOrNew() && ListsOldOrNew()
        invariant newkey in overridedata ==> fresh(overridedata[newkey])
        invariant list.items == old(list.items)
        invariant AllRenamed(ToView(), key, newkey, list.items[i..], depth) == goal
      {
        OwnListed(newkey);
        assert list.items[i..][1..] == list.items[i + 1..];
        if newkey !in overridedata {
          return Missing;
        }
        OwnExclusive(newkey, nodes);
        end := RenameNext(list.items[i], key, newkey, depth, nodes);
        if end != Finished {
          return;
        }
      }
      return Finished;
    }

    /** `getVar` without expansion while parsing. */
    method GetLocal(v: Var, ghost nodes: set<DataSmart>) returns (value: Option<string>)
      requires Forest(nodes) && this in nodes
      ensures Forest(nodes) && forall n :: n in nodes ==> n.ToView() == old(n.ToView())
      ensures value == Local(ToView().FlagsOf(v), false)
    {
      var local := FindVar(v, nodes);
      return Local(if local == null then NO_FLAGS else local.f, false);
    }

    /** Limited by how many calls may still be nested, as the interpreter limits it. */
    method RenameVar(key: Var, newkey: Var, depth: nat, ghost nodes: set<DataSmart>) returns (end: End)
      requires Forest(nodes) && this in nodes
      modifies this`dict, this`overridedata, Dicts()`f
      ensures Forest(nodes) && Isolated(nodes, this) && OldOrNew() && ListsOldOrNew()
      ensures (ToView(), end) == Renamed(old(ToView()), key, newkey, depth)
      decreases depth, 4
    {
      if key == newkey {
        return Finished;
      }
      if depth == 0 {
        return TooDeep;
      }
      hide DataSmart.Shown, DataSmart.Overrides, DataSmart.Linked, DataSmart.Owned, Moved, Carried, Local, OldSyntax;
      var value := GetLocal(key, nodes);
      if value.Some? && OldSyntax(newkey) {
        return Fatal;
      }
      end := CarryAndMove(key, newkey, value, depth, nodes);
    }

    method CarryAndMove(key: Var, newkey: Var, value: Option<string>, depth: nat, ghost nodes: set<DataSmart>)
        returns (end: End)
      requires Forest(nodes) && this in nodes && depth > 0
      requires value == Local(ToView().FlagsOf(key), false) && (value.Some? ==> !OldSyntax(newkey))
      modifies this`dict, this`overridedata, Dicts()`f
      ensures Forest(nodes) && Isolated(nodes, this) && OldOrNew() && ListsOldOrNew()
      ensures (ToView(), end) == Moved(Carried(old(ToView()), key, newkey), key, newkey, value.None?, depth)
      decreases depth, 3
    {
      hide DataSmart.Shown, DataSmart.Overrides, DataSmart.Linked, DataSmart.Owned, DataSmart.ToView, DataSmart.Lists,
          Moved, Carried, Local, OldSyntax;
      Carry(key, newkey, value, nodes);
      end := Move(key, newkey, value.None?, depth, nodes);
    }

    /** The second half: the names that override key are renamed, and key is deleted. */
    method Move(key: Var, newkey: Var, unset: bool, depth: nat, ghost nodes: set<DataSmart>) returns (end: End)
      requires Forest(nodes) && this in nodes && depth > 0
      modifies this`dict, this`overridedata, Dicts()`f
      ensures Forest(nodes) && Isolated(nodes, this) && OldOrNew() && ListsOldOrNew()
      ensures (ToView(), end) == Moved(old(ToView()), key, newkey, unset, depth)
      decreases depth, 2
    {
      OwnListed(key);
      hide DataSmart.Shown, DataSmart.Overrides, DataSmart.Linked, DataSmart.Owned, DataSmart.Lists;
      hide AllRenamed, Relisted, Deleted;
      if key in overridedata {
        end := RenameOverriders(key, newkey, overridedata[key], depth, nodes);
        if end != Finished {
          return;
        }
      }
      Leave(key, newkey, unset, nodes);
      return Finished;
    }

    /** The end of `renameVar`. */
    method Leave(key: Var, newkey: Var, unset: bool, ghost nodes: set<DataSmart>)
      requires Forest(nodes) && this in nodes
      modifies this`dict, this`overridedata
      ensures Forest(nodes) && Isolated(nodes, this) && OldOrNew() && ListsOldOrNew()
      ensures ToView() == Deleted(Relisted(old(ToView()), newkey, unset), key)
    {
      hide DataSmart.Shown, DataSmart.Overrides, DataSmart.Linked, DataSmart.Owned, DataSmart.Lists, Registered,
          Deleted;
      if ':' in newkey && unset {
        UpdateOverrides(newkey, nodes);
      }
      DelVar(key, nodes);
    }

    // ---------- reads ----------

    method MatchFor(v: Var, ovs: seq<string>, ghost nodes: set<DataSmart>) returns (other: Option<Var>)
      requires Forest(nodes) && this in nodes && v in overridedata
      ensures Forest(nodes) && ToView() == old(ToView())
      ensures other == Winner(old(overridedata[v].items), ovs)
    {
      hide DataSmart.Shown, DataSmart.Linked, Winner;
      other := FindMatch(overridedata[v].items, ovs);
      assert forall e :: e in old(ChainDicts()) ==> old(allocated(e)) && e.f == old(e.f);
      assert ChainDicts() == old(ChainDicts());
    }

    /** `getVar` without expansion. */
    method GetVar(v: Var, ovs: seq<string>, noWeak: bool, parsing: bool, ghost nodes: set<DataSmart>)
        returns (r: Option<string>)
      requires Forest(nodes) && this in nodes && Nested(Overrides())
      ensures r == if parsing then Local(old(ToView()).FlagsOf(v), noWeak) else Reading(old(ToView()), v, ovs, noWeak)
      decreases From(Overrides(), |v|)
    {
      OwnListed(v);
      hide DataSmart.Shown, DataSmart.Overrides, DataSmart.Linked, DataSmart.Owned, Decorated, Local, Winner;
      ghost var w := ToView();
      var local := FindVar(v, nodes);
      r := None;
      if v in overridedata && !parsing {
        var other := MatchFor(v, ovs, nodes);
        if other.Some? {
          assert other == Overrider(w, v, ovs) && w == ToView();
          r := GetVar(other.value, ovs, false, false, nodes);
        }
      }
      if local == null {
        DecoratedPlain(r, ovs);
        return;
      }
      if r.None? {
        r := Local(local.f, noWeak);
      }
      if !parsing {
        r := Decorate(r, local.f, ovs);
      }
    }

    /** Nothing else refers to the list this store has for the name. */
    ghost predicate Exclusive(nodes: set<DataSmart>, s: Var)
      reads nodes`overridedata, this`overridedata
    {
      && s in overridedata
      && forall n, w :: n in nodes && w in n.overridedata && (n != this || w != s) ==>
         n.overridedata[w] != overridedata[s]
    }

    method StoreOwn(s: Var, items: seq<Pair>, ghost nodes: set<DataSmart>)
      requires Forest(nodes) && this in nodes && Exclusive(nodes, s)
      modifies overridedata[s]
      ensures Forest(nodes) && Isolated(nodes, this) && Shown() == old(Shown())
      ensures Overrides() == old(Overrides())[s := items]
    {
      assert forall n :: n in nodes && this !in n.chain ==> n != this;
      hide DataSmart.Shown, DataSmart.Linked;
      overridedata[s].items := items;
    }

    /** From now on this store has a list of its own for the name. */
    method Relist(s: Var, items: seq<Pair>, ghost nodes: set<DataSmart>)
      requires Forest(nodes) && this in nodes
      modifies this`overridedata
      ensures Forest(nodes) && Isolated(nodes, this) && Shown() == old(Shown())
      ensures Exclusive(nodes, s) && fresh(overridedata[s]) && ListsOldOrNew() &&
              Overrides() == old(Overrides())[s := items]
    {
      hide DataSmart.Shown, DataSmart.Overrides, DataSmart.Linked, DataSmart.Owned;
      var l := NewList(items, s, nodes);
      Enlist(s, l, nodes);
    }

    method Enlist(s: Var, l: OverrideList, ghost nodes: set<DataSmart>)
      requires Forest(nodes) && this in nodes && l.key == s && forall n :: n in nodes ==> l !in n.Lists()
      modifies this`overridedata
      ensures Forest(nodes) && Isolated(nodes, this) && Shown() == old(Shown())
      ensures overridedata == old(overridedata)[s := l] && Exclusive(nodes, s) &&
              Overrides() == old(Overrides())[s := l.items]
    {
      assert forall n :: n in nodes && this !in n.chain ==> n != this;
      hide DataSmart.Shown, DataSmart.Linked;
      overridedata := overridedata[s := l];
    }
  }

  lemma MergePush(below: map<Var, Flags>, own: map<Var, Flags>, v: Var, f: Flags)
    ensures below + own[v := f] == (below + own)[v := f]
  {
  }

  lemma ListingCases(t: Table, s: Var, p: Pair)
    requires s in t
    ensures Listing(t[s], p) == if p in t[s] then t[s] else t[s] + [p]
    ensures p in t[s] ==> t[s := Listing(t[s], p)] == t
  {
  }

  ghost predicate Forest(nodes: set<DataSmart>)
    reads nodes`dict, nodes`overridedata
  {
    forall n :: n in nodes ==> n.Linked() && n.chain <= nodes && n.Owned()
  }

  /** Nothing has changed for the stores that do not read through to c. */
  twostate predicate Isolated(nodes: set<DataSmart>, c: DataSmart)
    requires old(Forest(nodes)) && Forest(nodes)
    reads nodes`dict, nodes`overridedata, (set n, v | n in nodes && v in n.dict :: n.dict[v])`f,
          (set n, v | n in nodes && v in n.overridedata :: n.overridedata[v])`items
  {
    forall n :: n in nodes && c !in n.chain ==> n.ToView() == old(n.ToView())
  }

  // ---------- any sequence of operations on one store ----------

  datatype Op =
    | Assign(v: Var, value: string, parsing: bool, ovs: seq<string>)
    | Delete(v: Var)
    | PutFlag(v: Var, flag: string, value: string)
    | PutOps(v: Var, kind: Kind, ops: seq<Deferred>)
    | DropFlag(v: Var, flag: string)
    | Rename(key: Var, newkey: Var, depth: nat)
    | Branch

  /** Text is no value for an operator, and no variable is renamed to nothing. */
  predicate IsProper(op: Op) {
    match op
    case PutFlag(_, flag, _) => !IsOperator(flag)
    case Rename(_, newkey, _) => newkey != ""
    case _ => true
  }

  /** An operation that fails leaves what it did up to then. */
  ghost function Done(w: View, op: Op): View {
    match op
    case Assign(v, value, parsing, ovs) => if OldSyntax(v) then w else Assigned(w, v, value, parsing, ovs)
    case Delete(v) => Deleted(w, v)
    case PutFlag(v, flag, value) => WithFlag(w, v, flag, value)
    case PutOps(v, kind, ops) => WithOps(w, v, kind, ops)
    case DropFlag(v, flag) => WithoutFlag(w, v, flag)
    case Rename(key, newkey, depth) => Renamed(w, key, newkey, depth).0
    case Branch => w
  }

  ghost function AllDone(w: View, ops: seq<Op>): View
    decreases |ops|
  {
    if ops == [] then w else AllDone(Done(w, ops[0]), ops[1..])
  }

  lemma DoneNested(w: View, op: Op)
    requires Nested(w.table) && IsProper(op)
    ensures Nested(Done(w, op).table)
  {
    hide Nested, Registered, Unregistered, Cleared, ParseKeyword, OldSyntax, Renamed;
    match op
    case Assign(v, value, parsing, ovs) =>
      ClearedKeeps(w, v, ovs);
      NestedRegistered(w.table, v);
      NestedRegistered(Cleared(w, v, ovs).table, v);
      if ParseKeyword(v).Some? {
        NestedRegistered(w.table, ParseKeyword(v).value.base);
      }
    case Delete(v) =>
      NestedWithout(w.table, v);
      NestedUnregistered(w.table - {v}, v);
    case PutFlag(v, flag, value) =>
      NestedRegistered(w.table, v);
    case PutOps(v, kind, ops) =>
    case DropFlag(v, flag) =>
    case Rename(key, newkey, depth) =>
      RenamedNested(w, key, newkey, depth);
    case Branch =>
  }

  /** Only a renaming can list a name twice: see `RenamingRepeats`. */
  lemma DoneDistinct(w: View, op: Op)
    requires Distinct(w.table) && !op.Rename?
    ensures Distinct(Done(w, op).table)
  {
    hide Distinct, Registered, Unregistered, ParseKeyword, OldSyntax, Renamed;
    match op
    case Assign(v, value, parsing, ovs) =>
      ClearedDistinct(w, v, ovs);
      DistinctRegistered(w.table, v);
      DistinctRegistered(Cleared(w, v, ovs).table, v);
      if ParseKeyword(v).Some? {
        DistinctRegistered(w.table, ParseKeyword(v).value.base);
      }
    case Delete(v) =>
      DistinctWithout(w.table, v);
      DistinctUnregistered(w.table - {v}, v);
    case PutFlag(v, flag, value) =>
      DistinctRegistered(w.table, v);
    case PutOps(v, kind, ops) =>
    case DropFlag(v, flag) =>
    case Branch =>
  }

  lemma DistinctWithout(t: Table, v: Var)
    requires Distinct(t)
    ensures Distinct(t - {v})
  {
  }

  lemma ClearedDistinct(w: View, v: Var, ovs: seq<string>)
    requires Distinct(w.table)
    ensures Distinct(Cleared(w, v, ovs).table)
  {
    var bare := w.(shown := w.shown[v := w.FlagsOf(v).(later := map[])]);
    if v in w.table {
      DistinctDeleted(bare, ActiveNames(w.table[v], ovs));
    }
  }

  lemma {:induction false} AllDoneDistinct(w: View, ops: seq<Op>)
    requires Distinct(w.table) && forall op :: op in ops ==> !op.Rename?
    ensures Distinct(AllDone(w, ops).table)
    decreases |ops|
  {
    hide Distinct, Done;
    if ops != [] {
      assert ops[0] in ops && forall op :: op in ops[1..] ==> op in ops;
      DoneDistinct(w, ops[0]);
      AllDoneDistinct(Done(w, ops[0]), ops[1..]);
    }
  }

  /**
   Whatever is done to c, it shows what the same operations make of one plain dictionary, and no
   store that does not read through to it can tell.
   */
  method Perform(c: DataSmart, ops: seq<Op>, ghost nodes: set<DataSmart>)
    requires Forest(nodes) && c in nodes && Nested(c.Overrides()) && forall op :: op in ops ==> IsProper(op)
    modifies c`dict, c`overridedata, c.Dicts()`f
    ensures Forest(nodes) && Nested(c.Overrides())
    ensures c.ToView() == AllDone(old(c.ToView()), ops)
    ensures forall n :: n in nodes && c !in n.chain ==> n.ToView() == old(n.ToView())
  {
    hide DataSmart.Shown, DataSmart.Overrides, DataSmart.Linked, DataSmart.Owned, Nested, Assigned, Deleted, WithFlag,
        WithoutFlag;
    ghost var all := nodes;
    for i := 0 to |ops|
      invariant nodes <= all && Forest(all) && c in all && Nested(c.Overrides()) && c.OldOrNew()
      invariant AllDone(c.ToView(), ops[i..]) == AllDone(old(c.ToView()), ops)
      invariant forall n :: n in nodes && c !in n.chain ==> n.ToView() == old(n.ToView())
    {
      assert ops[i..][1..] == ops[i + 1..];
      if ops[i].Branch? {
        var b := Branched(c, all);
        all := all + {b};
      } else {
        PerformOne(c, ops[i], all);
      }
    }
  }

  method Branched(c: DataSmart, ghost nodes: set<DataSmart>) returns (b: DataSmart)
    requires Forest(nodes) && c in nodes
    ensures fresh(b) && Forest(nodes + {b}) && b.ToView() == c.ToView()
    ensures forall n :: n in nodes ==> n.ToView() == old(n.ToView())
  {
    hide DataSmart.Shown, DataSmart.Linked, DataSmart.Owned;
    b := c.CreateCopy(nodes);
    forall n | n in nodes ensures n.ToView() == old(n.ToView()) {
      assert forall e :: e in old(n.ChainDicts()) ==> old(allocated(e)) && e.f == old(e.f);
      assert n.ChainDicts() == old(n.ChainDicts());
    }
  }

  method PerformOne(c: DataSmart, op: Op, ghost nodes: set<DataSmart>)
    requires Forest(nodes) && c in nodes && !op.Branch? && IsProper(op) && Nested(c.Overrides())
    modifies c`dict, c`overridedata, c.Dicts()`f
    ensures Forest(nodes) && Isolated(nodes, c) && c.OldOrNew() && Nested(c.Overrides())
    ensures c.ToView() == Done(old(c.ToView()), op)
  {
    hide DataSmart.Shown, DataSmart.Overrides, DataSmart.Linked, DataSmart.Owned, Nested;
    DoneNested(c.ToView(), op);
    match op
    case Assign(v, value, parsing, ovs) =>
      var fatal := c.SetVar(v, value, parsing, ovs, nodes);
    case Delete(v) =>
      c.DelVar(v, nodes);
    case PutFlag(v, flag, value) =>
      c.SetVarFlag(v, flag, value, nodes);
    case PutOps(v, kind, ops) =>
      c.SetOps(v, kind, ops, nodes);
    case DropFlag(v, flag) =>
      c.DelVarFlag(v, flag, nodes);
    case Rename(key, newkey, depth) =>
      var end := c.RenameVar(key, newkey, depth, nodes);
  }
}
