/** The names of recipe files: a real file, the class that extends it, and the multiconfig. */
module FileNames {
  import opened Strings
  import opened Collections

  datatype Real = Real(fn: string, cls: string, mc: string)

  /** `realfn2virtual` */
  function ToVirtual(r: Real): string {
    var v := if r.cls != "" then "virtual:" + r.cls + ":" + r.fn else r.fn;
    if r.mc != "" then "mc:" + r.mc + ":" + v else v
  }

  /** `s.startswith("mc:") and s.count(":") >= 2` */
  predicate HasConfig(s: string) {
    StartsWith(s, "mc:") && |Parts(s)| >= 3
  }

  /** `virtualfn2realfn` */
  function ToReal(v: string): Real {
    if HasConfig(v) then FileAndClass(JoinParts(Parts(v)[2..]), Parts(v)[1]) else FileAndClass(v, "")
  }

  function FileAndClass(v: string, mc: string): (r: Real)
    ensures r.mc == mc
  {
    var elems := Parts(v);
    if StartsWith(v, "virtual:") then
      VirtualHasParts(v);
      Real(elems[|elems| - 1], JoinParts(elems[1..|elems| - 1]), mc)
    else Real(v, "", mc)
  }

  /** `variant2virtual` */
  function VariantToVirtual(fn: string, variant: string): string {
    if variant == "" then fn
    else if HasConfig(variant) then
      var elems := Parts(variant);
      if elems[2] != "" then "mc:" + elems[1] + ":virtual:" + JoinParts(elems[2..]) + ":" + fn
      else "mc:" + elems[1] + ":" + fn
    else "virtual:" + variant + ":" + fn
  }

  // ---------- splitting ----------

  lemma VirtualHasParts(s: string)
    requires StartsWith(s, "virtual:")
    ensures |Parts(s)| >= 2 && Parts(s)[0] == "virtual" && Parts(s) == ["virtual"] + Parts(s[8..])
  {
    assert s == "virtual" + ":" + s[8..];
    PartsCons("virtual", s[8..]);
  }

  lemma ConfigParts(mc: string, v: string)
    requires ':' !in mc
    ensures var s := "mc:" + mc + ":" + v;
            HasConfig(s) && Parts(s) == ["mc", mc] + Parts(v) && Parts(s)[1] == mc && JoinParts(Parts(s)[2..]) == v
  {
    var s := "mc:" + mc + ":" + v;
    assert s == "mc" + ":" + (mc + ":" + v);
    PartsCons("mc", mc + ":" + v);
    PartsCons(mc, v);
    assert Parts(s) == ["mc", mc] + Parts(v);
    assert Parts(s)[2..] == Parts(v);
    JoinOfParts(v);
    assert "mc:" <= s;
  }

  lemma LastPartShorter(s: string)
    ensures |Parts(s)| >= 2 ==> |Parts(s)[|Parts(s)| - 1]| < |s|
    ensures |Parts(s)[|Parts(s)| - 1]| <= |s| && ':' !in Parts(s)[|Parts(s)| - 1]
  {
    if s != "" {
      LastPartShorter(s[1..]);
    }
  }

  // ---------- round trips ----------

  /** A name without a configuration is read back if nothing in it can be taken for a prefix or cut off. */
  predicate Plain(fn: string, cls: string) {
    if cls != "" then ':' !in fn else !StartsWith(fn, "virtual:")
  }

  lemma ReadRest(fn: string, cls: string, mc: string)
    ensures FileAndClass(ToVirtual(Real(fn, cls, "")), mc) == Real(fn, cls, mc) <==> Plain(fn, cls)
  {
    var v := ToVirtual(Real(fn, cls, ""));
    var e := Parts(v);
    assert cls != "" ==> v[..8] == "virtual:";
    if StartsWith(v, "virtual:") {
      VirtualHasParts(v);
      LastPartShorter(v);
      if cls != "" && ':' !in fn {
        assert v == "virtual" + ":" + (cls + ":" + fn);
        PartsCons("virtual", cls + ":" + fn);
        PartsSnoc(cls, fn);
        assert e == ["virtual"] + Parts(cls) + [fn];
        assert e[1..|e| - 1] == Parts(cls);
        JoinOfParts(cls);
      }
    }
  }

  /**
   Reading a written name gives back the file, class and configuration exactly when the
   configuration has no colon, and the file has none either (with a class) or does not begin
   like a virtual name itself (without one).
   */
  lemma ReadsBack(r: Real)
    ensures ToReal(ToVirtual(r)) == r <==>
            ':' !in r.mc && Plain(r.fn, r.cls) && (r.mc == "" && r.cls == "" ==> !HasConfig(r.fn))
  {
    hide ToVirtual, ToReal, FileAndClass, HasConfig;
    ReadRest(r.fn, r.cls, r.mc);
    if r.mc == "" {
      NoConfigWritten(r.fn, r.cls);
    } else {
      ConfigWritten(r);
    }
  }

  /** Behind a class, what comes before the last colon of a file name is taken for more of the class. */
  lemma ColonIsCut(cls: string, p: string, q: string)
    requires cls != "" && ':' !in q
    ensures ToReal(ToVirtual(Real(p + ":" + q, cls, ""))) == Real(q, cls + ":" + p, "")
  {
    var rest := cls + ":" + p;
    var v := ToVirtual(Real(p + ":" + q, cls, ""));
    assert v == "virtual:" + (rest + ":" + q) && v[..8] == "virtual:" && v[8..] == rest + ":" + q && v[0] == 'v';
    VirtualHasParts(v);
    PartsSnoc(rest, q);
    var e := Parts(v);
    assert e[1..|e| - 1] == Parts(rest) && e[|e| - 1] == q;
    JoinOfParts(rest);
  }

  lemma NoConfigWritten(fn: string, cls: string)
    ensures var v := ToVirtual(Real(fn, cls, ""));
            if cls == "" && HasConfig(fn) then ToReal(v).fn != fn else ToReal(v) == FileAndClass(v, "")
  {
    var v := ToVirtual(Real(fn, cls, ""));
    if cls != "" {
      assert v[0] == 'v';
    } else if HasConfig(fn) {
      ConfigIsCut(fn);
    }
  }

  lemma ConfigWritten(r: Real)
    requires r.mc != ""
    ensures var v := ToVirtual(r);
            if ':' in r.mc then ToReal(v).mc != r.mc
                else ToReal(v) == FileAndClass(ToVirtual(Real(r.fn, r.cls, "")), r.mc)
  {
    hide FileAndClass;
    var v := ToVirtual(Real(r.fn, r.cls, ""));
    if ':' !in r.mc {
      ConfigParts(r.mc, v);
    } else {
      SplitConfig(r.mc + ":" + v);
      ManyParts(r.mc, v);
      assert ToVirtual(r) == "mc:" + (r.mc + ":" + v);
      assert ToReal(ToVirtual(r)).mc == Parts(r.mc + ":" + v)[0];
    }
  }

  lemma SplitConfig(rest: string)
    ensures var s := "mc:" + rest; StartsWith(s, "mc:") && Parts(s) == ["mc"] + Parts(rest) && ':' !in Parts(rest)[0]
  {
    PartsCons("mc", rest);
    assert "mc" + ":" + rest == "mc:" + rest;
    FirstPartPlain(rest);
  }

  lemma FirstPartPlain(s: string)
    ensures ':' !in Parts(s)[0]
  {
  }

  lemma {:induction false} ManyParts(a: string, b: string)
    ensures |Parts(a + ":" + b)| >= 2
  {
    var s := a + ":" + b;
    if a == "" {
      assert s[1..] == b;
    } else {
      assert s[1..] == a[1..] + ":" + b;
      ManyParts(a[1..], b);
    }
  }

  /** What is read as a configured name is longer than the file name that is read from it. */
  lemma ConfigIsCut(v: string)
    requires HasConfig(v)
    ensures |ToReal(v).fn| < |v|
  {
    var elems := Parts(v);
    JoinShorter(elems);
    JoinOfParts(v);
    LastPartShorter(JoinParts(elems[2..]));
  }

  lemma JoinShorter(p: seq<string>)
    requires |p| >= 3
    ensures |JoinParts(p[2..])| < |JoinParts(p)|
  {
    assert p[1..][1..] == p[2..];
    assert JoinParts(p[1..]) == p[1] + ":" + JoinParts(p[2..]);
  }

  lemma ConfiguredVariant(fn: string, cls: string, mc: string)
    requires ':' !in mc
    ensures VariantToVirtual(fn, "mc:" + mc + ":" + cls) ==
            "mc:" + mc + ":" + if cls == "" || cls[0] == ':' then fn else "virtual:" + cls + ":" + fn
  {
    hide HasConfig, JoinParts;
    ConfigParts(mc, cls);
    assert Parts("mc:" + mc + ":" + cls)[2] == Parts(cls)[0];
    assert "mc:" + mc + ":" + ("virtual:" + cls + ":" + fn) == "mc:" + mc + ":virtual:" + cls + ":" + fn;
  }

  /** The variant "mc:m:c" stands for class c under configuration m, unless c begins with a colon. */
  lemma VariantAgrees(fn: string, cls: string, mc: string)
    requires ':' !in mc
    ensures VariantToVirtual(fn, "mc:" + mc + ":" + cls) == ToVirtual(Real(fn, cls, mc)) <==>
            mc != "" && !StartsWith(cls, ":")
    ensures !HasConfig(cls) ==> VariantToVirtual(fn, cls) == ToVirtual(Real(fn, cls, ""))
  {
    hide VariantToVirtual;
    ConfiguredVariant(fn, cls, mc);
    var v := "mc:" + mc + ":" + if cls == "" || cls[0] == ':' then fn else "virtual:" + cls + ":" + fn;
    var w := ToVirtual(Real(fn, cls, mc));
    assert v[0] == 'm' && (mc == "" && cls != "" ==> w[0] == 'v');
    if !HasConfig(cls) {
      PlainVariant(fn, cls);
    }
  }

  lemma PlainVariant(fn: string, cls: string)
    requires !HasConfig(cls)
    ensures VariantToVirtual(fn, cls) == ToVirtual(Real(fn, cls, ""))
  {
  }
}
