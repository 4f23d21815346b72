/** The variable store as values: what each write makes of it, and what unexpanded reads give. */
module VariableView {
  import opened Collections
  import opened Strings
  import opened OverrideResolution

  datatype Kind = Append | Prepend | Remove

  function Keyword(k: Kind): string {
    match k
    case Append => ":append"
    case Prepend => ":prepend"
    case Remove => ":remove"
  }

  /** A deferred operation: its text, and the overrides it waits for, where some are named. */
  datatype Deferred = Deferred(text: string, only: Option<string>)

  /** The dictionary of one variable: its plain flags, and the lists kept under the three keywords. */
  datatype Flags = Flags(plain: map<string, string>, later: map<Kind, seq<Deferred>>) {
    function Ops(k: Kind): seq<Deferred> {
      if k in later then later[k] else []
    }
  }

  const NO_FLAGS := Flags(map[], map[])
  const CONTENT := "_content"
  const DEFAULTVAL := "_defaultval"

  /** For each name, the names that override it. */
  type Table = map<Var, seq<Pair>>

  datatype View = View(shown: map<Var, Flags>, table: Table) {
    function FlagsOf(v: Var): Flags {
      if v in shown then shown[v] else NO_FLAGS
    }
  }

  // ---------- names ----------

  datatype Parsed = Parsed(base: Var, kind: Kind, only: Option<string>)

  /** What may follow a keyword: nothing, or a colon and text without capitals. */
  function AfterKeyword(rest: string): Option<Option<string>> {
    if rest == "" then Some(None)
    else if rest[0] == ':' && forall c :: c in rest[1..] ==> !('A' <= c <= 'Z') then Some(Some(rest[1..]))
    else None
  }

  function KeywordHere(v: Var, i: nat, k: Kind): Option<Parsed>
    requires i <= |v|
  {
    if Keyword(k) <= v[i..] then
      match AfterKeyword(v[i + |Keyword(k)|..])
      case Some(only) => Some(Parsed(v[..i], k, only))
      case None => None
    else None
  }

  /** The leftmost place where the name can be read as a base, a keyword and what follows it. */
  function ParseFrom(v: Var, i: nat): Option<Parsed>
    requires i <= |v|
    decreases |v| - i
  {
    if KeywordHere(v, i, Append).Some? then KeywordHere(v, i, Append)
    else if KeywordHere(v, i, Prepend).Some? then KeywordHere(v, i, Prepend)
    else if KeywordHere(v, i, Remove).Some? then KeywordHere(v, i, Remove)
    else if i == |v| then None
    else ParseFrom(v, i + 1)
  }

  function ParseKeyword(v: Var): Option<Parsed> {
    ParseFrom(v, 0)
  }

  /** No operator stands inside the name. */
  ghost predicate NoKeyword(v: Var) {
    forall i, k: Kind :: 0 <= i <= |v| ==> !(Keyword(k) <= v[i..])
  }

  ghost predicate NoCapitals(o: string) {
    forall c :: c in o ==> !('A' <= c <= 'Z')
  }

  function Suffix(only: Option<string>): string {
    if only.None? then "" else ":" + only.value
  }

  lemma ParseSuffixed(v: Var, k: Kind, only: Option<string>)
    requires NoKeyword(v) && (only.Some? ==> NoCapitals(only.value))
    ensures ParseKeyword(v + Keyword(k) + Suffix(only)) == Some(Parsed(v, k, only))
  {
    ParseSuffixedFrom(v, k, only, 0);
  }

  lemma {:induction false} ParseSuffixedFrom(v: Var, k: Kind, only: Option<string>, i: nat)
    requires NoKeyword(v) && (only.Some? ==> NoCapitals(only.value)) && i <= |v|
    ensures ParseFrom(v + Keyword(k) + Suffix(only), i) == Some(Parsed(v, k, only))
    decreases |v| - i
  {
    hide Keyword, AfterKeyword, NoKeyword, NoCapitals, Suffix;
    var s := v + Keyword(k) + Suffix(only);
    if i < |v| {
      forall j: Kind ensures !(Keyword(j) <= s[i..]) {
        KeywordShape(k);
        NotAcross(v, Keyword(k) + Suffix(only), i, j);
        assert s == v + (Keyword(k) + Suffix(only));
      }
      ParseSuffixedFrom(v, k, only, i + 1);
    } else {
      ParseHere(v, k, only);
    }
  }

  lemma ParseHere(v: Var, k: Kind, only: Option<string>)
    requires only.Some? ==> NoCapitals(only.value)
    ensures var s := v + Keyword(k) + Suffix(only);
            KeywordHere(s, |v|, k) == Some(Parsed(v, k, only)) &&
                forall j: Kind :: j != k ==> KeywordHere(s, |v|, j).None?
  {
    hide Keyword, AfterKeyword, Suffix, NoCapitals;
    var s := v + Keyword(k) + Suffix(only);
    assert s[|v|..] == Keyword(k) + Suffix(only) && s[..|v|] == v;
    assert s[|v| + |Keyword(k)|..] == Suffix(only);
    AfterSuffix(only);
    forall j: Kind | j != k ensures !(Keyword(j) <= s[|v|..]) {
      KeywordsDiffer(j, k, Suffix(only));
    }
  }

  /** The name is the base, the keyword and what may follow it. */
  ghost predicate Spells(p: Parsed, v: Var) {
    v == p.base + Keyword(p.kind) + Suffix(p.only) && (p.only.Some? ==> NoCapitals(p.only.value))
  }

  /**
   How a name is taken apart: with the shortest base there is, if it can be read as a base, an operator
   and perhaps overrides without capitals at all; otherwise not.
   */
  lemma ParseExactly(v: Var)
    ensures match ParseKeyword(v)
            case Some(p) => Spells(p, v) && forall q :: Spells(q, v) ==> |p.base| < |q.base| || q == p
            case None => forall q :: !Spells(q, v)
  {
    ParseFromExactly(v, 0);
  }

  lemma {:induction false} ParseFromExactly(v: Var, i: nat)
    requires i <= |v|
    ensures match ParseFrom(v, i)
            case Some(p) => i <= |p.base| && Spells(p, v) &&
                forall q :: Spells(q, v) && i <= |q.base| ==> |p.base| < |q.base| || q == p
            case None => forall q :: Spells(q, v) ==> |q.base| < i
    decreases |v| - i
  {
    hide Keyword, KeywordHere, Spells;
    HereExactly(v, i);
    SpellsBase(v);
    if i < |v| && forall k: Kind :: KeywordHere(v, i, k).None? {
      ParseFromExactly(v, i + 1);
    }
  }

  lemma SpellsBase(v: Var)
    ensures forall q :: Spells(q, v) ==> |q.base| <= |v|
  {
  }

  /** What can be read at one place, and that it is no more than one thing. */
  lemma HereExactly(v: Var, i: nat)
    requires i <= |v|
    ensures forall k: Kind, p :: KeywordHere(v, i, k) == Some(p) ==> Spells(p, v) && |p.base| == i && p.kind == k
    ensures forall q :: Spells(q, v) && |q.base| == i ==> KeywordHere(v, i, q.kind) == Some(q)
    ensures forall j: Kind, k: Kind :: j != k && KeywordHere(v, i, j).Some? ==> KeywordHere(v, i, k).None?
  {
    forall k: Kind, p | KeywordHere(v, i, k) == Some(p) ensures Spells(p, v) && |p.base| == i && p.kind == k {
      HereSpells(v, i, k);
    }
    forall q | Spells(q, v) && |q.base| == i
        ensures KeywordHere(v, i, q.kind) == Some(q) && forall j: Kind :: j != q.kind ==> KeywordHere(v, i, j).None? {
      ParseHere(q.base, q.kind, q.only);
    }
  }

  lemma HereSpells(v: Var, i: nat, k: Kind)
    requires i <= |v| && KeywordHere(v, i, k).Some?
    ensures Spells(KeywordHere(v, i, k).value, v)
  {
    hide Keyword;
    var rest := v[i + |Keyword(k)|..];
    assert v[i..][|Keyword(k)|..] == rest && v[i..][..|Keyword(k)|] == Keyword(k);
    assert v == v[..i] + Keyword(k) + rest;
    if rest != "" {
      assert rest == ":" + rest[1..];
    }
  }

  lemma AfterSuffix(only: Option<string>)
    requires only.Some? ==> NoCapitals(only.value)
    ensures AfterKeyword(Suffix(only)) == Some(only)
  {
    if only.Some? {
      assert Suffix(only)[1..] == only.value;
    }
  }

  lemma KeywordsDiffer(j: Kind, k: Kind, rest: string)
    requires j != k
    ensures !(Keyword(j) <= Keyword(k) + rest)
  {
    KeywordTexts(j, k);
    var a, b, s := Keyword(j), Keyword(k), Keyword(k) + rest;
    hide Keyword;
    assert s[1] == b[1] && s[2] == b[2];
  }

  lemma KeywordTexts(j: Kind, k: Kind)
    ensures |Keyword(j)| > 2 && |Keyword(k)| > 2
    ensures j != k ==> Keyword(j)[1] != Keyword(k)[1] || Keyword(j)[2] != Keyword(k)[2]
  {
  }

  lemma KeywordShape(k: Kind)
    ensures |Keyword(k)| > 1 && Keyword(k)[0] == ':' && forall m :: 0 < m < |Keyword(k)| ==> Keyword(k)[m] != ':'
  {
  }

  /** A keyword that begins inside the name would hold the colon that begins the next one. */
  lemma NotAcross(v: Var, rest: string, i: nat, j: Kind)
    requires NoKeyword(v) && i < |v| && rest != "" && rest[0] == ':'
    ensures !(Keyword(j) <= (v + rest)[i..])
  {
    hide Keyword;
    var s := v + rest;
    KeywordShape(j);
    assert s[i..][|v| - i] == ':';
    assert |Keyword(j)| <= |v| - i ==> s[i..][..|Keyword(j)|] == v[i..][..|Keyword(j)|];
    assert !(Keyword(j) <= v[i..]);
  }

  // ---------- the override table ----------

  /** `__override_regexp__.match`: only the first character is looked at. */
  predicate LooksLikeOverride(o: string) {
    o != "" && ('a' <= o[0] <= 'z' || '0' <= o[0] <= '9')
  }

  /** `islower`: a letter, and no capital; digits alone do not do. */
  predicate IsLower(o: string) {
    (exists c :: c in o && 'a' <= c <= 'z') && forall c :: c in o ==> !('A' <= c <= 'Z')
  }

  lemma NothingAccepted()
    ensures !LooksLikeOverride("") && !IsLower("")
  {
  }

  /** What the name adds to its first n characters; a name without colons counts as a whole. */
  function Tail(v: Var, n: nat): string
    requires n < |v|
  {
    if ':' in v then v[n + 1..] else v
  }

  ghost predicate NoColonAfter(v: Var, n: int) {
    forall q :: 0 <= q < |v| && n < q ==> v[q] != ':'
  }

  ghost predicate AcceptedAt(v: Var, q: nat, ok: string -> bool)
    requires q < |v|
  {
    v[q] == ':' ==> ok(v[q + 1..])
  }

  /**
   The first n characters are a name that v overrides: every piece of v from there on is accepted,
   down to the last. Of a name without a colon, all but the last character is taken.
   */
  ghost predicate IsSpot(v: Var, n: nat, ok: string -> bool) {
    if ':' !in v then n + 1 == |v| && ok(v)
    else
      && n < |v| && v[n] == ':' && (n > 0 || NoColonAfter(v, 0))
      && forall q :: n <= q < |v| ==> AcceptedAt(v, q, ok)
  }

  ghost function Registered(t: Table, v: Var): Table {
    RegisteredDownTo(t, v, 0)
  }

  /** Every name that v overrides lists it. */
  ghost function RegisteredDownTo(t: Table, v: Var, lo: nat): Table {
    map s | s in t.Keys + Spots(v, lo) ::
        if s in Spots(v, lo) && |s| < |v| then Listing(if s in t then t[s] else [], (v, Tail(v, |s|)))
        else if s in t then t[s] else []
  }

  /** The names of at least this length that v overrides. */
  ghost function Spots(v: Var, lo: nat): set<Var> {
    set n: nat | lo <= n < |v| && IsSpot(v, n, LooksLikeOverride) :: v[..n]
  }

  function Listing(was: seq<Pair>, p: Pair): seq<Pair> {
    if p in was then was else was + [p]
  }

  ghost function Unregistered(t: Table, v: Var): Table {
    UnregisteredDownTo(t, v, 0)
  }

  ghost function UnregisteredDownTo(t: Table, v: Var, lo: nat): Table {
    map s | s in t :: if lo <= |s| < |v| && s == v[..|s|] &&
        IsSpot(v, |s|, IsLower) then Unlisting(t[s], (v, Tail(v, |s|))) else t[s]
  }

  function Unlisting(was: seq<Pair>, p: Pair): seq<Pair> {
    if p in was then RemoveFirst(was, p) else was
  }

  // ---------- from the last colon to the first ----------

  /** `rfind(':')` */
  function LastColon(s: string): (n: int)
    ensures -1 <= n < |s|
  {
    if s == "" then -1
    else if s[|s| - 1] == ':' then |s| - 1
    else LastColon(s[..|s| - 1])
  }

  lemma {:induction false} LastColonFacts(s: string)
    ensures var n := LastColon(s); (n == -1 <==> ':' !in s) && (n >= 0 ==> s[n] == ':') && NoColonAfter(s, n)
  {
    if s != "" && s[|s| - 1] != ':' {
      assert s == s[..|s| - 1] + [s[|s| - 1]];
      LastColonFacts(s[..|s| - 1]);
    }
  }

  lemma LastColonBefore(v: Var, n: nat)
    requires n <= |v|
    ensures var m := LastColon(v[..n]);
            m < n && (m >= 0 ==> v[m] == ':') &&
            forall q :: 0 <= q < n && m < q ==> v[q] != ':'
  {
    hide LastColon;
    LastColonFacts(v[..n]);
    var m := LastColon(v[..n]);
    forall q | 0 <= q < n && m < q ensures v[q] != ':' {
      assert v[..n][q] != ':';
    }
  }

  /** A spot, if only its own piece is accepted. */
  ghost predicate Candidate(v: Var, n: nat, ok: string -> bool) {
    if ':' !in v then n + 1 == |v|
    else
      && n < |v| && v[n] == ':' && (n > 0 || NoColonAfter(v, 0))
      && forall q :: n < q < |v| ==> AcceptedAt(v, q, ok)
  }

  ghost predicate NoSpotIn(v: Var, lo: nat, hi: nat, ok: string -> bool) {
    forall n :: lo <= n < hi ==> !IsSpot(v, n, ok)
  }

  lemma NoSpotInNone(v: Var, n: nat, ok: string -> bool)
    ensures NoSpotIn(v, n, n, ok)
  {
  }

  lemma NoSpotJoin(v: Var, mid: nat, hi: nat, ok: string -> bool)
    ensures NoSpotIn(v, 0, mid, ok) && NoSpotIn(v, mid, hi, ok) ==> NoSpotIn(v, 0, hi, ok)
  {
  }

  lemma FirstCandidate(v: Var, n: nat, ok: string -> bool)
    requires v != "" && if ':' in v then n == LastColon(v) else n + 1 == |v|
    ensures Candidate(v, n, ok) && NoSpotIn(v, n + 1, |v|, ok) && Tail(v, n) == v[LastColon(v) + 1..]
  {
    hide LastColon;
    LastColonFacts(v);
    if LastColon(v) == -1 {
      assert v[0..] == v;
    }
  }

  lemma CandidateIsSpot(v: Var, n: nat, ok: string -> bool)
    requires Candidate(v, n, ok)
    ensures if ok(Tail(v, n)) then IsSpot(v, n, ok) else NoSpotIn(v, 0, n + 1, ok)
  {
    if ':' in v && !ok(Tail(v, n)) {
      assert !AcceptedAt(v, n, ok);
    }
  }

  /** The next colon to the left is the next candidate, unless it begins the name. */
  lemma NextCandidate(v: Var, n: nat, ok: string -> bool)
    requires n < |v| && IsSpot(v, n, ok)
    ensures var m := LastColon(v[..n]);
            if m > 0 then Candidate(v, m, ok) && NoSpotIn(v, m + 1, n, ok) && Tail(v, m) == v[m + 1..]
                else NoSpotIn(v, 0, n, ok)
  {
    hide LastColon;
    LastColonBefore(v, n);
  }

  /** The two parts of the name at a place: what it overrides, and with what. */
  ghost predicate IsPiece(v: Var, short: Var, override: string) {
    |short| < |v| && short == v[..|short|] && override == Tail(v, |short|)
  }

  lemma PieceAt(v: Var, n: nat)
    requires n < |v|
    ensures |v[..n]| == n && IsPiece(v, v[..n], Tail(v, n))
  {
  }

  /** Where both loops begin: at the last colon, or one before the end of a name without any. */
  function FirstPiece(v: Var): (string, Var) {
    var c := LastColon(v);
    (v[c + 1..], if c >= 0 then v[..c] else if v == "" then "" else v[..|v| - 1])
  }

  /** How both go on: at the next colon on the left, if there is one behind the first character. */
  function NextPiece(v: Var, short: Var): (string, Var)
    requires |short| <= |v|
  {
    var m := LastColon(short);
    if m > 0 then (v[m + 1..], v[..m]) else ("", short)
  }

  lemma FirstPieceFacts(v: Var, ok: string -> bool)
    requires !ok("")
    ensures var (o, s) := FirstPiece(v);
            && (o == "" ==> NoSpotIn(v, 0, |v|, ok))
            && (o != "" ==> IsPiece(v, s, o) && |s| < |v| && Candidate(v, |s|, ok))
            && NoSpotIn(v, if o == "" then |v| else |s| + 1, |v|, ok)
  {
    hide IsSpot, Candidate, NoSpotIn, LastColon, Tail, IsPiece;
    NoSpotInNone(v, |v|, ok);
    LastColonFacts(v);
    if ':' in v {
      FirstPieceAt(v, LastColon(v), ok);
    } else if v != "" {
      FirstPieceAt(v, |v| - 1, ok);
    }
  }

  lemma FirstPieceAt(v: Var, n: nat, ok: string -> bool)
    requires !ok("") && v != "" && if ':' in v then n == LastColon(v) else n + 1 == |v|
    ensures n < |v| && |v[..n]| == n && IsPiece(v, v[..n], v[LastColon(v) + 1..]) && Candidate(v, n, ok) &&
            NoSpotIn(v, n + 1, |v|, ok)
    ensures v[LastColon(v) + 1..] == "" ==> NoSpotIn(v, 0, |v|, ok)
  {
    hide IsSpot, Candidate, NoSpotIn, LastColon, Tail, IsPiece;
    FirstCandidate(v, n, ok);
    PieceAt(v, n);
    CandidateIsSpot(v, n, ok);
    NoSpotJoin(v, n + 1, |v|, ok);
  }

  lemma NextPieceFacts(v: Var, short: Var, was: string, ok: string -> bool)
    requires IsPiece(v, short, was) && Candidate(v, |short|, ok) && ok(was)
    ensures var (o, s) := NextPiece(v, short);
            && (o == "" ==> NoSpotIn(v, 0, |short|, ok))
            && (o != "" ==>
               |s| < |short| && IsPiece(v, s, o) && Candidate(v, |s|, ok) &&
               NoSpotIn(v, |s| + 1, |short|, ok))
  {
    hide IsSpot, Candidate, NoSpotIn, LastColon, Tail;
    CandidateIsSpot(v, |short|, ok);
    NextCandidate(v, |short|, ok);
    var m := LastColon(v[..|short|]);
    if m > 0 {
      PieceAt(v, m);
    }
  }

  /** What holds whenever one of the loops looks at a piece: everything from lo on is done. */
  ghost predicate AtPiece(v: Var, o: string, s: Var, lo: nat, ok: string -> bool) {
    && (o == "" ==> NoSpotIn(v, 0, lo, ok))
    && (o != "" ==> lo == |s| + 1 && IsPiece(v, s, o) && Candidate(v, |s|, ok))
  }

  /** How far the loop has come when it turns to a piece, having done everything from n on. */
  function Progress(o: string, s: Var, n: nat): nat {
    if o == "" then n else |s| + 1
  }

  function Listed(t: Table, s: Var, p: Pair): Table {
    t[s := Listing(if s in t then t[s] else [], p)]
  }

  function Unlisted(t: Table, s: Var, p: Pair): Table {
    if s in t then t[s := Unlisting(t[s], p)] else t
  }

  /** A name is overridden only by longer ones, which begin with it. */
  ghost predicate Nested(t: Table) {
    forall s, p :: s in t && p in t[s] ==> s < p.0
  }

  lemma RegisteredSkip(t: Table, v: Var, lo: nat, hi: nat)
    requires lo <= hi <= |v| && NoSpotIn(v, lo, hi, LooksLikeOverride)
    ensures RegisteredDownTo(t, v, lo) == RegisteredDownTo(t, v, hi)
  {
    assert Spots(v, lo) == Spots(v, hi) by {
      hide IsSpot;
    }
  }

  lemma RegisteredNone(t: Table, v: Var, lo: nat)
    requires lo <= |v| && NoSpotIn(v, lo, |v|, LooksLikeOverride)
    ensures RegisteredDownTo(t, v, lo) == t
  {
    hide IsSpot;
  }

  lemma RegisteredStep(t: Table, v: Var, s: Var, o: string)
    requires IsPiece(v, s, o) && Candidate(v, |s|, LooksLikeOverride) && LooksLikeOverride(o)
    ensures RegisteredDownTo(t, v, |s|) == Listed(RegisteredDownTo(t, v, |s| + 1), s, (v, o))
  {
    SpotsStep(v, s, o);
    hide IsSpot, Tail, Listing, Candidate, Spots;
  }

  lemma SpotsStep(v: Var, s: Var, o: string)
    requires IsPiece(v, s, o) && Candidate(v, |s|, LooksLikeOverride) && LooksLikeOverride(o)
    ensures Spots(v, |s|) == Spots(v, |s| + 1) + {s} && s !in Spots(v, |s| + 1)
  {
    hide IsSpot, Candidate, LooksLikeOverride;
    CandidateIsSpot(v, |s|, LooksLikeOverride);
    assert forall m: nat :: |s| < m < |v| ==> |v[..m]| == m;
  }

  lemma RegisteredStart(t: Table, v: Var)
    ensures var (o, s) := FirstPiece(v); var lo := Progress(o, s, |v|);
            lo <= |v| && (o != "" ==> |s| < |v|) && AtPiece(v, o, s, lo, LooksLikeOverride) &&
                RegisteredDownTo(t, v, lo) == t
  {
    hide IsSpot, Candidate, NoSpotIn, FirstPiece, RegisteredDownTo, LooksLikeOverride, Tail;
    NothingAccepted();
    FirstPieceFacts(v, LooksLikeOverride);
    RegisteredNone(t, v, Progress(FirstPiece(v).0, FirstPiece(v).1, |v|));
  }

  lemma RegisteredNext(t: Table, v: Var, o: string, s: Var, lo: nat)
    requires o != "" && |s| < |v| && AtPiece(v, o, s, lo, LooksLikeOverride) && LooksLikeOverride(o)
    ensures var (p, r) := NextPiece(v, s); var next := Progress(p, r, |s|);
            && AtPiece(v, p, r, next, LooksLikeOverride) && next < lo && (p != "" ==> |r| < |v|)
            && RegisteredDownTo(t, v, next) == Listed(RegisteredDownTo(t, v, lo), s, (v, o))
  {
    hide IsSpot, Candidate, NoSpotIn, NextPiece, RegisteredDownTo, LooksLikeOverride, Listed, Tail, IsPiece;
    NextPieceFacts(v, s, o, LooksLikeOverride);
    RegisteredStep(t, v, s, o);
    var (p, r) := NextPiece(v, s);
    if p != "" {
      RegisteredSkip(t, v, |r| + 1, |s|);
    }
  }

  /** Where the loop stops, nothing further to the left would have been listed. */
  lemma RegisteredEnd(t: Table, v: Var, o: string, s: Var, lo: nat)
    requires lo <= |v| && AtPiece(v, o, s, lo, LooksLikeOverride) && !(o != "" && LooksLikeOverride(o))
    ensures RegisteredDownTo(t, v, lo) == Registered(t, v)
  {
    hide IsSpot, Candidate, NoSpotIn, RegisteredDownTo, LooksLikeOverride, Tail;
    if o != "" {
      CandidateIsSpot(v, |s|, LooksLikeOverride);
    }
    RegisteredSkip(t, v, 0, lo);
  }

  lemma UnregisteredSkip(t: Table, v: Var, lo: nat, hi: nat)
    requires lo <= hi <= |v| && NoSpotIn(v, lo, hi, IsLower)
    ensures UnregisteredDownTo(t, v, lo) == UnregisteredDownTo(t, v, hi)
  {
    hide IsSpot;
  }

  lemma UnregisteredNone(t: Table, v: Var, lo: nat)
    requires lo <= |v| && NoSpotIn(v, lo, |v|, IsLower)
    ensures UnregisteredDownTo(t, v, lo) == t
  {
    hide IsSpot;
  }

  lemma UnregisteredStep(t: Table, v: Var, s: Var, o: string)
    requires IsPiece(v, s, o) && Candidate(v, |s|, IsLower) && IsLower(o)
    ensures var u := UnregisteredDownTo(t, v, |s| + 1);
            UnregisteredDownTo(t, v, |s|) == Unlisted(u, s, (v, o))
  {
    hide IsSpot, Unlisting, Candidate, Tail;
    CandidateIsSpot(v, |s|, IsLower);
  }

  lemma UnregisteredStart(t: Table, v: Var)
    ensures var (o, s) := FirstPiece(v); var lo := Progress(o, s, |v|);
            lo <= |v| && (o != "" ==> |s| < |v|) && AtPiece(v, o, s, lo, IsLower) && UnregisteredDownTo(t, v, lo) == t
  {
    hide IsSpot, Candidate, NoSpotIn, FirstPiece, UnregisteredDownTo, IsLower, Tail;
    NothingAccepted();
    FirstPieceFacts(v, IsLower);
    UnregisteredNone(t, v, Progress(FirstPiece(v).0, FirstPiece(v).1, |v|));
  }

  lemma UnregisteredNext(t: Table, v: Var, o: string, s: Var, lo: nat)
    requires o != "" && |s| < |v| && AtPiece(v, o, s, lo, IsLower) && IsLower(o)
    ensures var (p, r) := NextPiece(v, s); var next := Progress(p, r, |s|);
            && AtPiece(v, p, r, next, IsLower) && next < lo && (p != "" ==> |r| < |v|)
            && UnregisteredDownTo(t, v, next) == Unlisted(UnregisteredDownTo(t, v, lo), s, (v, o))
  {
    hide IsSpot, Candidate, NoSpotIn, NextPiece, UnregisteredDownTo, IsLower, Unlisted, Tail, IsPiece;
    NextPieceFacts(v, s, o, IsLower);
    UnregisteredStep(t, v, s, o);
    var (p, r) := NextPiece(v, s);
    if p != "" {
      UnregisteredSkip(t, v, |r| + 1, |s|);
    }
  }

  lemma UnregisteredEnd(t: Table, v: Var, o: string, s: Var, lo: nat)
    requires lo <= |v| && AtPiece(v, o, s, lo, IsLower) && !(o != "" && IsLower(o))
    ensures UnregisteredDownTo(t, v, lo) == Unregistered(t, v)
  {
    hide IsSpot, Candidate, NoSpotIn, UnregisteredDownTo, IsLower, Tail;
    if o != "" {
      CandidateIsSpot(v, |s|, IsLower);
    }
    UnregisteredSkip(t, v, 0, lo);
  }

  lemma NestedRegistered(t: Table, v: Var)
    requires Nested(t)
    ensures Nested(Registered(t, v))
  {
  }

  lemma {:induction false} RemoveFirstSubset<T>(s: seq<T>, x: T)
    requires x in s
    ensures forall e :: e in RemoveFirst(s, x) ==> e in s
  {
    if s[0] != x {
      RemoveFirstSubset(s[1..], x);
    }
  }

  lemma NestedUnregistered(t: Table, v: Var)
    requires Nested(t)
    ensures Nested(Unregistered(t, v))
  {
    UnregisteredSubset(t, v);
    hide Unregistered;
  }

  lemma NestedWithout(t: Table, v: Var)
    requires Nested(t)
    ensures Nested(t - {v})
  {
  }

  lemma UnregisteredSubset(t: Table, v: Var)
    ensures Unregistered(t, v).Keys == t.Keys && forall s, p :: s in t && p in Unregistered(t, v)[s] ==> p in t[s]
  {
    forall s | s in t ensures forall p :: p in Unregistered(t, v)[s] ==> p in t[s] {
      var p := (v, if |s| < |v| then Tail(v, |s|) else "");
      if p in t[s] {
        RemoveFirstSubset(t[s], p);
      }
    }
  }

  // ---------- writes ----------

  ghost function WithFlag(w: View, v: Var, flag: string, value: string): View {
    var f := w.FlagsOf(v);
    View(w.shown[v := f.(plain := f.plain[flag := value])],
         if flag == DEFAULTVAL && ':' in v then Registered(w.table, v) else w.table)
  }

  /** A flag goes; under an operator, the operations it defers. */
  function Dropped(f: Flags, flag: string): Flags {
    f.(plain := f.plain - {flag}, later := map k | k in f.later && Keyword(k) != flag :: f.later[k])
  }

  ghost function WithoutFlag(w: View, v: Var, flag: string): View {
    if w.FlagsOf(v) == NO_FLAGS then w else w.(shown := w.shown[v := Dropped(w.FlagsOf(v), flag)])
  }

  /** Flags with the names of the operators hold lists. */
  predicate IsOperator(flag: string) {
    flag == Keyword(Append) || flag == Keyword(Prepend) || flag == Keyword(Remove)
  }

  ghost function WithOps(w: View, v: Var, k: Kind, ops: seq<Deferred>): View {
    w.(shown := w.shown[v := w.FlagsOf(v).(later := w.FlagsOf(v).later[k := ops])])
  }

  lemma NothingDropped(f: Flags, flag: string)
    requires flag !in f.plain && forall k :: k in f.later ==> Keyword(k) != flag
    ensures Dropped(f, flag) == f
  {
    assert f.plain - {flag} == f.plain;
  }

  ghost function WithDeferred(w: View, v: Var, k: Kind, d: Deferred): View {
    var f := w.FlagsOf(v);
    View(w.shown[v := f.(later := f.later[k := f.Ops(k) + [d]])], Registered(w.table, v))
  }

  ghost function Deleted(w: View, v: Var): View {
    var t := w.table - {v};
    View(w.shown[v := NO_FLAGS], if ':' in v then Unregistered(t, v) else t)
  }

  ghost function AllDeleted(w: View, vs: seq<Var>): View
    decreases |vs|
  {
    if vs == [] then w else AllDeleted(Deleted(w, vs[0]), vs[1..])
  }

  function ActiveNames(pairs: seq<Pair>, ovs: seq<string>): seq<Var> {
    if pairs == [] then []
    else (if IsActive(pairs[0].1, ovs) then [pairs[0].0] else []) + ActiveNames(pairs[1..], ovs)
  }

  /** Before a value is set outside parsing, everything that would change it again is dropped. */
  ghost function Cleared(w: View, v: Var, ovs: seq<string>): View {
    var bare := w.(shown := w.shown[v := w.FlagsOf(v).(later := map[])]);
    if v !in w.table then bare
    else
      var d := AllDeleted(bare, ActiveNames(w.table[v], ovs));
      d.(table := d.table - {v})
  }

  lemma ClearedShadow(w: View, v: Var, ovs: seq<string>)
    ensures Cleared(w.(shown := w.shown[v := w.FlagsOf(v)]), v, ovs) == Cleared(w, v, ovs)
  {
    var f := w.FlagsOf(v);
    assert w.shown[v := f][v := f.(later := map[])] == w.shown[v := f.(later := map[])];
  }

  ghost function WithValue(w: View, v: Var, value: string, parsing: bool, ovs: seq<string>): View {
    var c := if parsing then w else Cleared(w, v, ovs);
    var f := c.FlagsOf(v);
    View(c.shown[v := f.(plain := f.plain[CONTENT := value])], if ':' in v then Registered(c.table, v) else c.table)
  }

  predicate OldSyntax(v: Var) {
    !StartsWith(v, "__anon_") && (Contains(v, "_append") || Contains(v, "_prepend") || Contains(v, "_remove"))
  }

  /** The operators of the old syntax are found anywhere in the name, but not in that of an anonymous function. */
  lemma OldSyntaxMeans(v: Var)
    ensures OldSyntax(v) <==>
            && !("__anon_" <= v)
            && exists i :: 0 <= i <= |v| && ("_append" <= v[i..] || "_prepend" <= v[i..] || "_remove" <= v[i..])
  {
    hide IndexOf;
    forall part ensures Contains(v, part) <==> exists i :: 0 <= i <= |v| && part <= v[i..] {
      IndexOfFound(v, part);
      if Contains(v, part) {
        var i := IndexOf(v, part).value;
        assert v[i..][..|part|] == v[i..i + |part|];
      }
    }
  }

  /** `setVar`: a name that ends in an operator defers, any other name is given the value. */
  ghost function Assigned(w: View, v: Var, value: string, parsing: bool, ovs: seq<string>): View {
    match ParseKeyword(v)
    case Some(p) => WithDeferred(w, p.base, p.kind, Deferred(value, p.only))
    case None => WithValue(w, v, value, parsing, ovs)
  }

  // ---------- unexpanded reads ----------

  predicate Applies(d: Deferred, ovs: seq<string>) {
    d.only.None? || d.only.value == "" || AllIn(Parts(d.only.value), ovs)
  }

  /** The texts that apply, in the order they were given. */
  function Applicable(ds: seq<Deferred>, ovs: seq<string>): seq<string> {
    if ds == [] then []
    else (if Applies(ds[0], ovs) then [ds[0].text] else []) + Applicable(ds[1..], ovs)
  }

  function Joined(texts: seq<string>): string {
    if texts == [] then "" else texts[0] + Joined(texts[1..])
  }

  function Backwards(texts: seq<string>): seq<string> {
    if texts == [] then [] else Backwards(texts[1..]) + [texts[0]]
  }

  /** Prepended texts, the latest first, then the value, then appended texts in order. */
  function Decorated(base: Option<string>, f: Flags, ovs: seq<string>): Option<string> {
    var before := Applicable(f.Ops(Prepend), ovs);
    var after := Applicable(f.Ops(Append), ovs);
    if base.None? && before == [] && after == [] then None
    else Some(Joined(Backwards(before)) + base.GetOr("") + Joined(after))
  }

  function Local(f: Flags, noWeak: bool): Option<string> {
    if CONTENT in f.plain then Some(f.plain[CONTENT])
    else if DEFAULTVAL in f.plain && !noWeak then Some(f.plain[DEFAULTVAL])
    else None
  }

  /** The names of the table from a length on: reading an overriding name looks at fewer. */
  ghost function From(t: Table, n: nat): set<Var> {
    set s | s in t && n <= |s|
  }

  /** The name whose value v takes, if it is overridden. */
  ghost function Overrider(w: View, v: Var, ovs: seq<string>): (o: Option<Var>)
    ensures Nested(w.table) && o.Some? ==>
            v in w.table && |v| < |o.value| && From(w.table, |o.value|) < From(w.table, |v|)
  {
    if v !in w.table then None
    else
      WinnerIsActive(w.table[v], ovs);
      assert v in From(w.table, |v|);
      Winner(w.table[v], ovs)
  }

  /** The value of the name that overrides v, if there is one. */
  ghost function OverReading(w: View, v: Var, ovs: seq<string>): Option<string>
    requires Nested(w.table)
    decreases From(w.table, |v|), 0
  {
    var o := Overrider(w, v, ovs);
    if o.Some? then Reading(w, o.value, ovs, false) else None
  }

  /** The value before expansion. */
  ghost function Reading(w: View, v: Var, ovs: seq<string>, noWeak: bool): Option<string>
    requires Nested(w.table)
    decreases From(w.table, |v|), 1
  {
    var over := OverReading(w, v, ovs);
    Decorated(if over.Some? then over else Local(w.FlagsOf(v), noWeak), w.FlagsOf(v), ovs)
  }

  // ---------- what writes do to reads ----------

  /** Both show the same for every name of this length or longer. */
  ghost predicate SameFrom(a: View, b: View, n: nat) {
    forall s: Var :: n <= |s| ==>
        a.FlagsOf(s) == b.FlagsOf(s) && (s in a.table <==> s in b.table) &&
        (s in a.table ==> a.table[s] == b.table[s])
  }

  lemma {:induction false} ReadingFrame(a: View, b: View, v: Var, ovs: seq<string>, noWeak: bool)
    requires Nested(a.table) && Nested(b.table) && SameFrom(a, b, |v|)
    ensures Reading(a, v, ovs, noWeak) == Reading(b, v, ovs, noWeak)
    decreases From(a.table, |v|)
  {
    hide Decorated, Local, Winner;
    var o := Overrider(a, v, ovs);
    assert o == Overrider(b, v, ovs);
    if o.Some? {
      ReadingFrame(a, b, o.value, ovs, false);
    }
  }

  lemma OverFrame(a: View, b: View, v: Var, ovs: seq<string>)
    requires Nested(a.table) && Nested(b.table) && SameFrom(a, b, |v| + 1)
    requires (v in a.table <==> v in b.table) && (v in a.table ==> a.table[v] == b.table[v])
    ensures OverReading(a, v, ovs) == OverReading(b, v, ovs)
  {
    hide Winner;
    var o := Overrider(a, v, ovs);
    assert o == Overrider(b, v, ovs);
    if o.Some? {
      ReadingFrame(a, b, o.value, ovs, false);
    }
  }

  /** A write to v and its listing under shorter names change nothing else of this length. */
  lemma RegisteredShorter(w: View, u: View, v: Var)
    requires u.table == Registered(w.table, v) || u.table == w.table
    requires forall s :: s != v ==> u.FlagsOf(s) == w.FlagsOf(s)
    ensures SameFrom(w, u, |v| + 1) && (v in w.table <==> v in u.table) && (v in w.table ==> w.table[v] == u.table[v])
  {
  }

  lemma {:induction false} AllDeletedNested(w: View, vs: seq<Var>)
    requires Nested(w.table)
    ensures Nested(AllDeleted(w, vs).table)
    decreases |vs|
  {
    if vs != [] {
      NestedUnregistered(w.table - {vs[0]}, vs[0]);
      AllDeletedNested(Deleted(w, vs[0]), vs[1..]);
    }
  }

  /** Deleting longer names leaves a name's own flags alone. */
  lemma {:induction false} AllDeletedKeeps(w: View, vs: seq<Var>, v: Var)
    requires forall a :: a in vs ==> |v| < |a|
    ensures AllDeleted(w, vs).FlagsOf(v) == w.FlagsOf(v)
    decreases |vs|
  {
    if vs != [] {
      assert vs[0] in vs && forall a :: a in vs[1..] ==> a in vs;
      AllDeletedKeeps(Deleted(w, vs[0]), vs[1..], v);
    }
  }

  lemma {:induction false} AllDeletedKeepsList(w: View, vs: seq<Var>, v: Var)
    requires v !in vs
    ensures v in AllDeleted(w, vs).table <==> v in w.table
    decreases |vs|
  {
    if vs != [] {
      assert vs[0] in vs && forall a :: a in vs[1..] ==> a in vs;
      AllDeletedKeepsList(Deleted(w, vs[0]), vs[1..], v);
    }
  }

  lemma {:induction false} ActiveNamesListed(pairs: seq<Pair>, ovs: seq<string>)
    ensures forall a :: a in ActiveNames(pairs, ovs) ==> exists p :: p in pairs && p.0 == a
  {
    if pairs != [] {
      ActiveNamesListed(pairs[1..], ovs);
      assert pairs[0] in pairs && forall p :: p in pairs[1..] ==> p in pairs;
    }
  }

  /** An override is active: it is listed as a whole, or all its components are. */
  ghost predicate NowActive(o: string, ovs: seq<string>) {
    o in ovs || (':' in o && forall p :: p in Parts(o) ==> p in ovs)
  }

  lemma {:induction false} ActiveNamesAre(pairs: seq<Pair>, ovs: seq<string>, a: Var)
    ensures a in ActiveNames(pairs, ovs) <==> exists p :: p in pairs && p.0 == a && NowActive(p.1, ovs)
  {
    if pairs != [] {
      ActiveNamesAre(pairs[1..], ovs, a);
      assert pairs == [pairs[0]] + pairs[1..];
      assert NowActive(pairs[0].1, ovs) <==> IsActive(pairs[0].1, ovs);
      hide NowActive, IsActive;
    }
  }

  lemma {:induction false} AllDeletedFlags(w: View, vs: seq<Var>, a: Var)
    ensures AllDeleted(w, vs).FlagsOf(a) == if a in vs then NO_FLAGS else w.FlagsOf(a)
    decreases |vs|
  {
    if vs != [] {
      assert vs == [vs[0]] + vs[1..];
      hide Unregistered;
      AllDeletedFlags(Deleted(w, vs[0]), vs[1..], a);
    }
  }

  /**
   What setting a value outside parsing throws away: the names that override the variable by active
   overrides, and what is deferred on the variable itself. All other names keep what they have.
   */
  lemma ClearedForgets(w: View, v: Var, ovs: seq<string>, a: Var)
    requires Nested(w.table)
    ensures var c := Cleared(w, v, ovs);
            c.FlagsOf(a) ==
            if a == v then w.FlagsOf(v).(later := map[])
            else if v in w.table && exists p :: p in w.table[v] && p.0 == a && NowActive(p.1, ovs) then NO_FLAGS
            else w.FlagsOf(a)
  {
    hide Nested, NowActive;
    if v in w.table {
      var bare := w.(shown := w.shown[v := w.FlagsOf(v).(later := map[])]);
      var names := ActiveNames(w.table[v], ovs);
      ActiveNamesAre(w.table[v], ovs, a);
      AllDeletedFlags(bare, names, a);
      if a == v {
        ClearedKeeps(w, v, ovs);
      }
    }
  }

  lemma ClearedKeeps(w: View, v: Var, ovs: seq<string>)
    requires Nested(w.table)
    ensures var c := Cleared(w, v, ovs);
            Nested(c.table) && v !in c.table && c.FlagsOf(v) == w.FlagsOf(v).(later := map[])
  {
    if v in w.table {
      var bare := w.(shown := w.shown[v := w.FlagsOf(v).(later := map[])]);
      var names := ActiveNames(w.table[v], ovs);
      ActiveNamesListed(w.table[v], ovs);
      AllDeletedNested(bare, names);
      AllDeletedKeeps(bare, names, v);
    }
  }

  /**
   A value set outside parsing is what is read back, whatever was appended, prepended or
   overridden before, and whichever overrides are active by then.
   */
  lemma SetReadsBack(w: View, v: Var, value: string, ovs: seq<string>, later: seq<string>, noWeak: bool)
    requires Nested(w.table)
    ensures var u := WithValue(w, v, value, false, ovs); Nested(u.table) && Reading(u, v, later, noWeak) == Some(value)
  {
    var c := Cleared(w, v, ovs);
    ClearedKeeps(w, v, ovs);
    NestedRegistered(c.table, v);
    var u := WithValue(w, v, value, false, ovs);
    assert v !in u.table;
    assert u.FlagsOf(v).later == map[];
    assert Joined([]) == "" && "" + value + "" == value;
  }

  lemma {:induction false} ApplicablePush(ds: seq<Deferred>, d: Deferred, ovs: seq<string>)
    ensures Applicable(ds + [d], ovs) == Applicable(ds, ovs) + if Applies(d, ovs) then [d.text] else []
  {
    hide Applies;
    if ds == [] {
      assert (ds + [d])[1..] == [];
    } else {
      assert (ds + [d])[1..] == ds[1..] + [d];
      ApplicablePush(ds[1..], d, ovs);
    }
  }

  lemma {:induction false} JoinedPush(texts: seq<string>, x: string)
    ensures Joined(texts + [x]) == Joined(texts) + x
  {
    if texts == [] {
      assert [x][1..] == [] && x + "" == x;
    } else {
      assert (texts + [x])[1..] == texts[1..] + [x];
      JoinedPush(texts[1..], x);
      assert texts[0] + (Joined(texts[1..]) + x) == texts[0] + Joined(texts[1..]) + x;
    }
  }

  lemma {:induction false} BackwardsPush(texts: seq<string>, x: string)
    ensures Backwards(texts + [x]) == [x] + Backwards(texts)
  {
    if texts != [] {
      assert (texts + [x])[1..] == texts[1..] + [x];
      BackwardsPush(texts[1..], x);
    }
  }

  /** What one more deferred operation makes of a value. */
  function Extended(was: Option<string>, k: Kind, d: Deferred, ovs: seq<string>): Option<string> {
    if !Applies(d, ovs) || k == Remove then was
    else if k == Append then Some(was.GetOr("") + d.text)
    else Some(d.text + was.GetOr(""))
  }

  lemma DecoratedPush(base: Option<string>, f: Flags, k: Kind, d: Deferred, ovs: seq<string>)
    ensures Decorated(base, f.(later := f.later[k := f.Ops(k) + [d]]), ovs) ==
            Extended(Decorated(base, f, ovs), k, d, ovs)
  {
    hide Applies, Applicable, Joined, Backwards;
    var g := f.(later := f.later[k := f.Ops(k) + [d]]);
    var before, after := Applicable(f.Ops(Prepend), ovs), Applicable(f.Ops(Append), ovs);
    ApplicablePush(f.Ops(k), d, ovs);
    JoinedEmpty();
    if k == Append {
      assert g.Ops(Prepend) == f.Ops(Prepend);
      JoinedPush(after, d.text);
      assert after + [] == after && "" + "" + d.text == "" + d.text;
      if Applies(d, ovs) {
        assert Joined(Backwards(before)) + base.GetOr("") + (Joined(after) + d.text) ==
               Joined(Backwards(before)) + base.GetOr("") + Joined(after) + d.text;
      }
    } else if k == Prepend {
      assert g.Ops(Append) == f.Ops(Append);
      BackwardsPush(before, d.text);
      JoinedPrepend(d.text, Backwards(before));
      assert before + [] == before && d.text + "" == d.text;
      if Applies(d, ovs) {
        assert d.text + Joined(Backwards(before)) + base.GetOr("") + Joined(after) ==
               d.text + (Joined(Backwards(before)) + base.GetOr("") + Joined(after));
      }
    } else {
      assert g.Ops(Append) == f.Ops(Append) && g.Ops(Prepend) == f.Ops(Prepend);
    }
  }

  lemma JoinedEmpty()
    ensures Joined([]) == "" && Backwards([]) == []
  {
  }

  lemma JoinedPrepend(x: string, texts: seq<string>)
    ensures Joined([x] + texts) == x + Joined(texts)
  {
    assert ([x] + texts)[1..] == texts;
  }

  /**
   A deferred append adds to the end of what is read, a prepend to its beginning, and only while
   all of its overrides are active; a removal waits for expansion. Whether the variable is itself
   overridden makes no difference.
   */
  lemma DeferredReads(w: View, v: Var, k: Kind, only: Option<string>, text: string, parsing: bool, ovs: seq<string>,
      later: seq<string>, noWeak: bool)
    requires Nested(w.table) && NoKeyword(v) && (only.Some? ==> NoCapitals(only.value))
    ensures var u := Assigned(w, v + Keyword(k) + Suffix(only), text, parsing, ovs);
            Nested(u.table) && Reading(u, v, later, noWeak) ==
                Extended(Reading(w, v, later, noWeak), k, Deferred(text, only), later)
  {
    hide Keyword, Suffix, NoKeyword, NoCapitals, ParseKeyword, Decorated, Extended, Registered, Nested, SameFrom;
    ParseSuffixed(v, k, only);
    NestedRegistered(w.table, v);
    var u := WithDeferred(w, v, k, Deferred(text, only));
    RegisteredShorter(w, u, v);
    var over := OverReading(w, v, later);
    OverFrame(w, u, v, later);
    DecoratedPush(if over.Some? then over
        else Local(w.FlagsOf(v), noWeak), w.FlagsOf(v), k, Deferred(text, only), later);
  }

  /** All components of the overrides that are named are active; the empty text names none. */
  ghost predicate AllActive(only: Option<string>, active: seq<string>) {
    only.None? || only.value == "" || forall o :: o in Parts(only.value) ==> o in active
  }

  /**
   When a deferred operation takes part in what is read: while each component of its overrides is
   active, and always if it has none. While one is not active the variable reads as before, and so it
   does after a removal.
   */
  lemma DeferredOnlyWhileActive(w: View, v: Var, k: Kind, only: Option<string>, text: string, parsing: bool,
      ovs: seq<string>, later: seq<string>, noWeak: bool)
    requires Nested(w.table) && NoKeyword(v) && (only.Some? ==> NoCapitals(only.value))
    ensures var u := Assigned(w, v + Keyword(k) + Suffix(only), text, parsing, ovs);
            && Nested(u.table)
            && (var was, now := Reading(w, v, later, noWeak), Reading(u, v, later, noWeak);
                if !AllActive(only, later) || k == Remove then now == was
                else if k == Append then now == Some(was.GetOr("") + text)
                else now == Some(text + was.GetOr("")))
  {
    DeferredReads(w, v, k, only, text, parsing, ovs, later, noWeak);
    hide Assigned, Reading, Nested, Suffix, Keyword, Parts;
  }

  lemma AppendFor(w: View, v: Var, o: string, text: string, parsing: bool, ovs: seq<string>, later: seq<string>,
      noWeak: bool)
    requires Nested(w.table) && NoKeyword(v) && NoCapitals(o) && o != ""
    ensures var u := Assigned(w, v + ":append:" + o, text, parsing, ovs);
            && Nested(u.table)
            && Reading(u, v, later, noWeak) ==
               if AllIn(Parts(o), later) then Some(Reading(w, v, later, noWeak).GetOr("") + text)
               else Reading(w, v, later, noWeak)
  {
    hide Assigned, Reading, Nested, NoKeyword, NoCapitals, Parts;
    DeferredOnlyWhileActive(w, v, Append, Some(o), text, parsing, ovs, later, noWeak);
    assert v + ":append" + (":" + o) == v + ":append:" + o;
  }

  lemma TwoPieces(a: string, b: string, later: seq<string>)
    requires ':' !in a && ':' !in b
    ensures AllIn(Parts(a + ":" + b), later) <==> a in later && b in later
    ensures AllIn(Parts(a), later) <==> a in later
  {
    PartsPlain(a);
    PartsPlain(b);
    PartsCons(a, b);
    hide Parts;
    assert Parts(a)[0] == a && Parts(a + ":" + b)[0] == a && Parts(a + ":" + b)[1] == b;
  }

  /** An append for `a:b` is read exactly while both are active; one for `a`, while a is. */
  lemma AppendForTwo(w: View, v: Var, a: string, b: string, text: string, parsing: bool, ovs: seq<string>,
      later: seq<string>, noWeak: bool)
    requires Nested(w.table) && NoKeyword(v) && NoCapitals(a) && NoCapitals(b) && ':' !in a && ':' !in b
    ensures var was := Reading(w, v, later, noWeak);
            var two := Assigned(w, v + ":append:" + (a + ":" + b), text, parsing, ovs);
            var one := Assigned(w, v + ":append:" + a, text, parsing, ovs);
            && Nested(two.table)
            && Reading(two, v, later, noWeak) ==
               (if a in later && b in later then Some(was.GetOr("") + text) else was)
            && (a != "" ==> Nested(one.table))
            && (a != "" ==>
                Reading(one, v, later, noWeak) == if a in later then Some(was.GetOr("") + text) else was)
  {
    hide Assigned, Reading, Nested, NoKeyword, Parts, AllIn;
    assert NoCapitals(a + ":" + b);
    hide NoCapitals;
    TwoPieces(a, b, later);
    AppendFor(w, v, a + ":" + b, text, parsing, ovs, later, noWeak);
    if a != "" {
      AppendFor(w, v, a, text, parsing, ovs, later, noWeak);
    }
  }

  // ---------- weak defaults and other flags ----------

  /** The variable has no value of its own, nothing is deferred on it, and no name overrides it. */
  ghost predicate Blank(w: View, v: Var) {
    CONTENT !in w.FlagsOf(v).plain && w.FlagsOf(v).later == map[] && v !in w.table
  }

  /**
   A weak default is what a variable without a value reads as, unless weak defaults are left out; a value
   given afterwards wins over it.
   */
  lemma WeakDefaultReads(w: View, v: Var, weak: string, value: string, ovs: seq<string>, later: seq<string>)
    requires Nested(w.table) && Blank(w, v)
    ensures var u := WithFlag(w, v, DEFAULTVAL, weak);
            var x := WithValue(u, v, value, true, ovs);
            && Nested(u.table) && Nested(x.table)
            && Reading(u, v, later, false) == Some(weak)
            && Reading(u, v, later, true) == None
            && forall noWeak :: Reading(x, v, later, noWeak) == Some(value)
  {
    NestedRegistered(w.table, v);
    var u := WithFlag(w, v, DEFAULTVAL, weak);
    NestedRegistered(u.table, v);
    hide Registered, Nested;
    RegisteredShorter(w, u, v);
    BlankReads(u, v, later);
    var x := WithValue(u, v, value, true, ovs);
    RegisteredShorter(u, x, v);
    BlankReads(x, v, later);
  }

  lemma BlankReads(w: View, v: Var, later: seq<string>)
    requires Nested(w.table) && v !in w.table && w.FlagsOf(v).later == map[]
    ensures forall noWeak :: Reading(w, v, later, noWeak) == Local(w.FlagsOf(v), noWeak)
  {
    forall noWeak ensures Reading(w, v, later, noWeak) == Local(w.FlagsOf(v), noWeak) {
      var base := Local(w.FlagsOf(v), noWeak);
      assert Joined([]) == "" && (base.Some? ==> "" + base.value + "" == base.value);
    }
  }

  /** Where a variable has a value, a weak default changes nothing that is read. */
  lemma ValueOverWeakDefault(w: View, v: Var, weak: string, later: seq<string>, noWeak: bool)
    requires Nested(w.table) && CONTENT in w.FlagsOf(v).plain
    ensures var u := WithFlag(w, v, DEFAULTVAL, weak);
            Nested(u.table) && Reading(u, v, later, noWeak) == Reading(w, v, later, noWeak)
  {
    NestedRegistered(w.table, v);
    var u := WithFlag(w, v, DEFAULTVAL, weak);
    hide Registered, Nested;
    RegisteredShorter(w, u, v);
    OverFrame(w, u, v, later);
    forall base: Option<string> ensures Decorated(base, u.FlagsOf(v), later) == Decorated(base, w.FlagsOf(v), later) {
      DecoratedIgnoresPlain(w.FlagsOf(v), u.FlagsOf(v), base, later);
    }
    hide Decorated;
  }

  /** Both show the same of v, the flag and the operations under its name left aside, and the same of all others. */
  ghost predicate SameButFlag(a: View, b: View, v: Var, flag: string) {
    var f, g := a.FlagsOf(v), b.FlagsOf(v);
    && (forall s :: s != v ==> a.FlagsOf(s) == b.FlagsOf(s))
    && (forall other :: other != flag ==>
         (other in f.plain <==> other in g.plain) && (other in f.plain ==> f.plain[other] == g.plain[other]))
    && forall k :: Keyword(k) != flag ==> f.Ops(k) == g.Ops(k)
  }

  lemma FlagShows(w: View, v: Var, flag: string, value: string)
    ensures var u := WithFlag(w, v, flag, value);
            flag in u.FlagsOf(v).plain && u.FlagsOf(v).plain[flag] == value && SameButFlag(w, u, v, flag)
  {
    hide Keyword;
  }

  /** A deleted flag is gone, and so are the operations kept under its name. */
  lemma FlagGone(w: View, v: Var, flag: string)
    ensures var d := WithoutFlag(w, v, flag);
            && flag !in d.FlagsOf(v).plain && SameButFlag(w, d, v, flag) && d.table == w.table
            && forall k :: Keyword(k) == flag ==> d.FlagsOf(v).Ops(k) == []
  {
    hide Keyword;
    var f, g := w.FlagsOf(v), WithoutFlag(w, v, flag).FlagsOf(v);
    assert g == Dropped(f, flag) || f == NO_FLAGS == g;
    DroppedOps(f, flag);
    hide Dropped;
    DroppedPlain(f, flag);
  }

  lemma DroppedOps(f: Flags, flag: string)
    ensures forall k :: Dropped(f, flag).Ops(k) == if Keyword(k) == flag then [] else f.Ops(k)
  {
    hide Keyword;
  }

  lemma DroppedPlain(f: Flags, flag: string)
    ensures flag !in Dropped(f, flag).plain
    ensures forall other :: other != flag ==>
            (other in f.plain <==> other in Dropped(f, flag).plain) &&
            (other in f.plain ==> f.plain[other] == Dropped(f, flag).plain[other])
  {
  }

  /** A deleted variable reads as unset. */
  lemma DeletedReads(w: View, v: Var, ovs: seq<string>, noWeak: bool)
    requires Nested(w.table)
    ensures Nested(Deleted(w, v).table) && Reading(Deleted(w, v), v, ovs, noWeak) == None
  {
    NestedUnregistered(w.table - {v}, v);
  }

  /** While parsing, a value is set under the operations deferred so far, and overrides still win. */
  lemma ParsedValueReads(w: View, v: Var, value: string, ovs: seq<string>, later: seq<string>, noWeak: bool)
    requires Nested(w.table)
    ensures var u := WithValue(w, v, value, true, ovs);
            && Nested(u.table)
            && Reading(u, v, later, noWeak) ==
               Decorated(Some(OverReading(w, v, later).GetOr(value)), w.FlagsOf(v), later)
  {
    hide Decorated, Registered, Nested, SameFrom;
    NestedRegistered(w.table, v);
    var u := WithValue(w, v, value, true, ovs);
    RegisteredShorter(w, u, v);
    OverFrame(w, u, v, later);
    DecoratedIgnoresPlain(w.FlagsOf(v), u.FlagsOf(v), Some(OverReading(w, v, later).GetOr(value)), later);
  }

  lemma DecoratedIgnoresPlain(f: Flags, g: Flags, base: Option<string>, ovs: seq<string>)
    requires f.later == g.later
    ensures Decorated(base, f, ovs) == Decorated(base, g, ovs)
  {
  }

  // ---------- setting an overriding name ----------

  /** The overrides recorded for v have one component each, and only one name stands for o. */
  ghost predicate OneEach(t: Table, v: Var, o: string) {
    v in t ==> forall p :: p in t[v] ==> ':' !in p.1 && (p.1 == o ==> p.0 == v + ":" + o)
  }

  /** o is active, and comes later in OVERRIDES than every other active override of v. */
  ghost predicate Supreme(t: Table, v: Var, o: string, ovs: seq<string>) {
    o in ovs && (v in t ==> forall p :: p in t[v] && p.1 in ovs && p.1 != o ==> First(ovs, p.1) < First(ovs, o))
  }

  lemma OverrideSpot(v: Var, o: string)
    requires ':' !in o && LooksLikeOverride(o)
    ensures var name := v + ":" + o;
            name[..|v|] == v && |v| < |name| && Tail(name, |v|) == o && IsSpot(name, |v|, LooksLikeOverride)
  {
    var name := v + ":" + o;
    assert name[|v|] == ':' && name[|v| + 1..] == o;
    forall q | |v| < q < |name| ensures name[q] != ':' {
      assert name[q] == o[q - |v| - 1];
    }
    assert forall q :: |v| <= q < |name| ==> AcceptedAt(name, q, LooksLikeOverride);
  }

  lemma OverrideListed(t: Table, v: Var, o: string)
    requires ':' !in o && LooksLikeOverride(o)
    ensures v in Registered(t, v + ":" + o) &&
            Registered(t, v + ":" + o)[v] == Listing(if v in t then t[v] else [], (v + ":" + o, o))
  {
    OverrideSpot(v, o);
    hide IsSpot, LooksLikeOverride, Listing;
    assert v in Spots(v + ":" + o, 0);
  }

  /** A name with one more piece overrides what is before it if the piece begins with a small letter or a digit. */
  lemma ListedByFirstLetter(v: Var, o: string)
    requires ':' !in o
    ensures v in Registered(map[], v + ":" + o) <==> o != "" && ('a' <= o[0] <= 'z' || '0' <= o[0] <= '9')
    ensures v in Registered(map[], v + ":" + o) ==> Registered(map[], v + ":" + o)[v] == [(v + ":" + o, o)]
  {
    var name := v + ":" + o;
    assert name[|v|] == ':' && name[|v| + 1..] == o && name[..|v|] == v;
    if LooksLikeOverride(o) {
      OverrideListed(map[], v, o);
    } else {
      hide LooksLikeOverride;
      assert !AcceptedAt(name, |v|, LooksLikeOverride);
    }
  }

  /** Deleting the name unlists it only if the piece has a small letter and no capital. */
  lemma UnlistedByCase(v: Var, o: string)
    requires ':' !in o
    ensures var name := v + ":" + o;
            var t: Table := map[v := [(name, o)]];
            Unregistered(t, name)[v] ==
            if (exists c :: c in o && 'a' <= c <= 'z') && forall c :: c in o ==> !('A' <= c <= 'Z') then []
            else [(name, o)]
  {
    var name := v + ":" + o;
    assert name[|v|] == ':' && name[|v| + 1..] == o && name[..|v|] == v && Tail(name, |v|) == o;
    assert IsLower(o) <==> (exists c :: c in o && 'a' <= c <= 'z') && forall c :: c in o ==> !('A' <= c <= 'Z');
    hide IsLower;
    NoColonBehind(v, o);
    assert AcceptedAt(name, |v|, IsLower) <==> IsLower(o);
    assert IsSpot(name, |v|, IsLower) <==> IsLower(o);
    hide IsSpot;
  }

  lemma NoColonBehind(v: Var, o: string)
    requires ':' !in o
    ensures NoColonAfter(v + ":" + o, |v|) && (|v| == 0 ==> NoColonAfter(v + ":" + o, 0))
  {
    forall q | |v| < q < |v + ":" + o| ensures (v + ":" + o)[q] != ':' {
      assert (v + ":" + o)[q] == o[q - |v| - 1];
    }
  }

  lemma SupremeWins(pairs: seq<Pair>, v: Var, o: string, ovs: seq<string>)
    requires forall p :: p in pairs ==> ':' !in p.1 && (p.1 == o ==> p.0 == v + ":" + o)
    requires o in ovs && (v + ":" + o, o) in pairs
    requires forall p :: p in pairs && p.1 in ovs && p.1 != o ==> First(ovs, p.1) < First(ovs, o)
    ensures Winner(pairs, ovs) == Some(v + ":" + o)
  {
    hide Winner, First;
    RightmostWins(pairs, ovs);
    var os := seq(|pairs|, i requires 0 <= i < |pairs| => pairs[i].1);
    var i :| 0 <= i < |pairs| && pairs[i] == (v + ":" + o, o);
    assert os[i] == o;
    var best :| Rightmost(best, Elems(os), ovs) && LastFor(pairs, best, Winner(pairs, ovs).value);
    var j :| 0 <= j < |pairs| && pairs[j] == (Winner(pairs, ovs).value, best);
    assert pairs[j] in pairs;
  }

  /**
   While parsing, `v:o = value` gives v that value wherever o is the last active override of v;
   what was deferred on `v:o` and on v itself still applies.
   */
  lemma OverrideTakesEffect(w: View, v: Var, o: string, value: string, ovs: seq<string>, later: seq<string>,
      noWeak: bool)
    requires Nested(w.table) && ':' !in o && LooksLikeOverride(o)
    requires OneEach(w.table, v, o) && Supreme(w.table, v, o, later)
    ensures var name := v + ":" + o;
            var u := WithValue(w, name, value, true, ovs);
            && Nested(u.table)
            && Reading(u, v, later, noWeak) ==
               Decorated(Decorated(Some(OverReading(w, name, later).GetOr(value)), w.FlagsOf(name), later),
               w.FlagsOf(v), later)
  {
    hide Decorated, Registered, Nested, First, Winner, LooksLikeOverride;
    var name := v + ":" + o;
    var u := WithValue(w, name, value, true, ovs);
    ParsedValueReads(w, name, value, ovs, later, false);
    OverrideListed(w.table, v, o);
    assert |name| > |v|;
    var was := if v in w.table then w.table[v] else [];
    var pairs := Listing(was, (name, o));
    assert (name, o) in pairs && forall p :: p in pairs ==> p in was || p == (name, o);
    SupremeWins(pairs, v, o, later);
    assert Overrider(u, v, later) == Some(name);
    DecoratedSome(OverReading(w, name, later).GetOr(value), w.FlagsOf(name), later);
    assert u.FlagsOf(v) == w.FlagsOf(v);
  }

  /** A name `v:o` for which nothing was recorded is given a text; where o is the last active override, v reads it. */
  lemma ListedWins(w: View, u: View, v: Var, o: string, later: seq<string>)
    requires Nested(w.table) && ':' !in o && LooksLikeOverride(o)
    requires OneEach(w.table, v, o) && Supreme(w.table, v, o, later)
    requires u.table == Registered(w.table, v + ":" + o) && u.FlagsOf(v) == w.FlagsOf(v)
    ensures Nested(u.table) && OverReading(u, v, later) == Reading(u, v + ":" + o, later, false)
  {
    hide Decorated, Registered, Nested, First, Winner, LooksLikeOverride;
    var name := v + ":" + o;
    NestedRegistered(w.table, name);
    OverrideListed(w.table, v, o);
    var was := if v in w.table then w.table[v] else [];
    var pairs := Listing(was, (name, o));
    assert (name, o) in pairs && forall p :: p in pairs ==> p in was || p == (name, o);
    SupremeWins(pairs, v, o, later);
    assert Overrider(u, v, later) == Some(name);
  }

  /**
   A weak default of `v:o` is what v takes for its value wherever o is the last active override, even
   where weak defaults of v itself are left out.
   */
  lemma WeakOverrideReads(w: View, v: Var, o: string, weak: string, later: seq<string>, noWeak: bool)
    requires Nested(w.table) && ':' !in o && LooksLikeOverride(o) && Blank(w, v + ":" + o)
    requires OneEach(w.table, v, o) && Supreme(w.table, v, o, later)
    ensures var u := WithFlag(w, v + ":" + o, DEFAULTVAL, weak);
            Nested(u.table) && Reading(u, v, later, noWeak) == Decorated(Some(weak), w.FlagsOf(v), later)
  {
    hide Decorated, Registered, Nested, LooksLikeOverride, OneEach, Supreme;
    var name := v + ":" + o;
    assert name[|v|] == ':' && |name| > |v|;
    var u := WithFlag(w, name, DEFAULTVAL, weak);
    ListedWins(w, u, v, o, later);
    WeakDefaultReads(w, name, weak, "", [], later);
  }

  /** So it is with a text appended to `v:o`. */
  lemma AppendedOverrideReads(w: View, v: Var, o: string, text: string, parsing: bool, ovs: seq<string>,
      later: seq<string>, noWeak: bool)
    requires Nested(w.table) && ':' !in o && LooksLikeOverride(o) && NoKeyword(v + ":" + o)
    requires OneEach(w.table, v, o) && Supreme(w.table, v, o, later)
    ensures var u := Assigned(w, v + ":" + o + ":append", text, parsing, ovs);
            && Nested(u.table)
            && Reading(u, v, later, noWeak) ==
               Decorated(Some(Reading(w, v + ":" + o, later, false).GetOr("") + text), w.FlagsOf(v), later)
  {
    var name := v + ":" + o;
    assert |name| > |v|;
    var u := Assigned(w, name + ":append", text, parsing, ovs);
    assert name + Keyword(Append) + Suffix(None) == name + ":append";
    ParseSuffixed(name, Append, None);
    assert u.table == Registered(w.table, name) && u.FlagsOf(v) == w.FlagsOf(v);
    hide Decorated, Registered, Nested, LooksLikeOverride, OneEach, Supreme, Assigned, NoKeyword;
    DeferredOnlyWhileActive(w, name, Append, None, text, parsing, ovs, later, false);
    ListedWins(w, u, v, o, later);
  }

  /** No capitals at all, and a letter behind the last colon. */
  ghost predicate AllLower(o: string) {
    NoCapitals(o) && IsLower(LastOf(o))
  }

  lemma LastPiece(o: string)
    ensures var last := LastOf(o);
            |last| <= |o| && last == o[|o| - |last|..] && ':' !in last && (':' !in o ==> last == o) &&
                (':' in o ==> |last| < |o| && o[|o| - |last| - 1] == ':')
  {
    hide LastOf, Parts;
    if ':' in o {
      LastEnds(o);
    } else {
      LastOfPlain(o);
    }
  }

  lemma LastOfPlain(o: string)
    requires ':' !in o
    ensures LastOf(o) == o
  {
    PartsPlain(o);
  }

  /** All the pieces behind the colons are in lower case exactly if the whole text and its last component are. */
  lemma LowerPieces(o: string)
    ensures AllLower(o) <==> IsLower(o) && forall q :: 0 <= q < |o| ==> AcceptedAt(o, q, IsLower)
  {
    hide LastOf, Parts;
    LastPiece(o);
    var last := LastOf(o);
    if AllLower(o) {
      var c :| c in last && 'a' <= c <= 'z';
      var k :| 0 <= k < |last| && last[k] == c;
      var m := |o| - |last| + k;
      assert o[m] == c && c in o;
      forall q | 0 <= q < |o| ensures AcceptedAt(o, q, IsLower) {
        if o[q] == ':' {
          assert forall n :: |o| - |last| <= n < |o| ==> o[n] == last[n - (|o| - |last|)] && o[n] in last;
          var rest := o[q + 1..];
          assert rest[m - q - 1] == c && c in rest;
          assert forall d :: d in rest ==> d in o;
          assert IsLower(rest);
        }
      }
    } else if ':' in o && IsLower(o) {
      assert o[|o| - |last|..] == last;
      assert !AcceptedAt(o, |o| - |last| - 1, IsLower);
    }
  }

  lemma DeletedSpot(v: Var, o: string)
    requires v != "" || ':' !in o
    ensures var name := v + ":" + o;
            |v| < |name| && name[..|v|] == v && Tail(name, |v|) == o && ':' in name &&
                (IsSpot(name, |v|, IsLower) <==> AllLower(o))
  {
    var name := v + ":" + o;
    assert name[|v|] == ':' && name[|v| + 1..] == o;
    hide IsLower, AllLower;
    LowerPieces(o);
    forall q | 0 <= q < |o| ensures AcceptedAt(name, |v| + 1 + q, IsLower) <==> AcceptedAt(o, q, IsLower) {
      assert name[|v| + 1 + q] == o[q] && name[|v| + 1 + q + 1..] == o[q + 1..];
    }
    assert AcceptedAt(name, |v|, IsLower) <==> IsLower(o);
    assert forall q :: |v| < q < |name| ==> name[q] == o[q - |v| - 1];
    if v == "" {
      assert NoColonAfter(name, 0);
    }
    if forall q :: |v| <= q < |name| ==> AcceptedAt(name, q, IsLower) {
      forall q | 0 <= q < |o| ensures AcceptedAt(o, q, IsLower) {
        assert AcceptedAt(name, |v| + 1 + q, IsLower);
      }
    } else {
      var q :| |v| <= q < |name| && !AcceptedAt(name, q, IsLower);
      if q > |v| {
        assert !AcceptedAt(o, q - |v| - 1, IsLower);
      }
    }
  }

  lemma {:induction false} RemoveFirstOfOne<T>(s: seq<T>, x: T)
    requires x in s && NoDup(s)
    ensures x !in RemoveFirst(s, x)
  {
    RemoveFirstIsWithout(s, x);
    WithoutElems(s, {x});
  }

  /**
   Deleting `v:o` takes it off v's list exactly when o has no capitals, and a letter in its last
   component: "32" is not enough, nor is "arm:32".
   */
  lemma DeletedIsUnlisted(w: View, v: Var, o: string)
    requires (v != "" || ':' !in o) && v in w.table && NoDup(w.table[v]) && (v + ":" + o, o) in w.table[v]
    ensures v in Deleted(w, v + ":" + o).table
    ensures (v + ":" + o, o) in Deleted(w, v + ":" + o).table[v] <==> !AllLower(o)
  {
    hide IsSpot, IsLower, NoDup, AllLower;
    DeletedSpot(v, o);
    RemoveFirstOfOne(w.table[v], (v + ":" + o, o));
  }

  /**
   Otherwise the deletion makes no difference to which name overrides v: where it was the deleted
   one, that still wins over all others, though it no longer has a value.
   */
  lemma DeletedStillWins(w: View, v: Var, o: string, later: seq<string>)
    requires Nested(w.table) && (v != "" || ':' !in o) && !AllLower(o)
    ensures var u := Deleted(w, v + ":" + o);
            && Nested(u.table) && Overrider(u, v, later) == Overrider(w, v, later)
            && (Overrider(w, v, later) == Some(v + ":" + o) ==> OverReading(u, v, later) == None)
  {
    hide IsSpot, AllLower, Winner, Nested, Reading;
    var name := v + ":" + o;
    DeletedSpot(v, o);
    DeletedReads(w, name, later, false);
    var u := Deleted(w, name);
    assert v in w.table ==> u.table[v] == w.table[v];
  }

  /** A deleted override of digits is still listed. */
  lemma StillListed(w: View)
    requires "A" in w.table && ("A:32", "32") in w.table["A"]
    ensures "A" in Deleted(w, "A:32").table && ("A:32", "32") in Deleted(w, "A:32").table["A"]
  {
    hide IsSpot, LastOf;
    DeletedSpot("A", "32");
    LastOfPlain("32");
    assert "A" + ":" + "32" == "A:32";
    assert !IsLower("32") by {
      assert forall c :: c in "32" ==> c == '3' || c == '2';
    }
  }

  // ---------- no name is listed twice ----------

  ghost predicate Distinct(t: Table) {
    forall s :: s in t ==> NoDup(t[s])
  }

  lemma DistinctRegistered(t: Table, v: Var)
    requires Distinct(t)
    ensures Distinct(Registered(t, v))
  {
    hide IsSpot, Tail;
    var r := Registered(t, v);
    forall s | s in r ensures NoDup(r[s]) {
      if s in t && |s| < |v| && (v, Tail(v, |s|)) !in t[s] {
        NoDupPush(t[s], (v, Tail(v, |s|)));
      }
    }
  }

  lemma NoDupRemoveFirst<T>(s: seq<T>, x: T)
    requires x in s && NoDup(s)
    ensures NoDup(RemoveFirst(s, x))
  {
    RemoveFirstIsWithout(s, x);
    WithoutElems(s, {x});
  }

  lemma DistinctUnregistered(t: Table, v: Var)
    requires Distinct(t)
    ensures Distinct(Unregistered(t, v))
  {
    hide IsSpot, Tail;
    forall s | s in t ensures NoDup(Unregistered(t, v)[s]) {
      if |s| < |v| && (v, Tail(v, |s|)) in t[s] {
        NoDupRemoveFirst(t[s], (v, Tail(v, |s|)));
      }
    }
  }

  lemma {:induction false} DistinctDeleted(w: View, vs: seq<Var>)
    requires Distinct(w.table)
    ensures Distinct(AllDeleted(w, vs).table)
    decreases |vs|
  {
    hide Unregistered;
    if vs != [] {
      DistinctUnregistered(w.table - {vs[0]}, vs[0]);
      DistinctDeleted(Deleted(w, vs[0]), vs[1..]);
    }
  }

  lemma DecoratedSome(value: string, f: Flags, ovs: seq<string>)
    ensures Decorated(Some(value), f, ovs).Some?
  {
  }

  // ---------- the loops of `getVarFlag` over deferred operations ----------

  method Decorate(base: Option<string>, f: Flags, ovs: seq<string>) returns (r: Option<string>)
    ensures r == Decorated(base, f, ovs)
  {
    hide Applicable, Joined, Backwards;
    r := AddAfter(base, f.Ops(Append), ovs);
    var middle := r;
    r := AddBefore(r, f.Ops(Prepend), ovs);
    JoinedEmpty();
    var before, after := Joined(Backwards(Applicable(f.Ops(Prepend), ovs))), Joined(Applicable(f.Ops(Append), ovs));
    assert before + (base.GetOr("") + after) == before + base.GetOr("") + after;
    assert base.GetOr("") + "" == base.GetOr("");
    assert before + base.GetOr("") + "" == before + base.GetOr("");
    assert "" + (base.GetOr("") + after) == base.GetOr("") + after;
  }

  method AddAfter(base: Option<string>, ds: seq<Deferred>, ovs: seq<string>) returns (r: Option<string>)
    ensures var after := Applicable(ds, ovs);
            r == if after == [] then base else Some(base.GetOr("") + Joined(after))
  {
    hide Applies, Applicable, Joined;
    r := base;
    NoneApplicable(ovs);
    for i := 0 to |ds|
      invariant var after := Applicable(ds[..i], ovs);
                r ==
                if after == [] then base else Some(base.GetOr("") + Joined(after))
    {
      var after := Applicable(ds[..i], ovs);
      ApplicablePush(ds[..i], ds[i], ovs);
      JoinedPush(after, ds[i].text);
      assert ds[..i + 1] == ds[..i] + [ds[i]] && after + [] == after;
      JoinedEmpty();
      assert base.GetOr("") + (Joined(after) + ds[i].text) == base.GetOr("") + Joined(after) + ds[i].text;
      assert base.GetOr("") + "" == base.GetOr("");
      if Applies(ds[i], ovs) {
        r := Some(r.GetOr("") + ds[i].text);
      }
    }
    assert ds[..|ds|] == ds;
  }

  method AddBefore(base: Option<string>, ds: seq<Deferred>, ovs: seq<string>) returns (r: Option<string>)
    ensures var before := Applicable(ds, ovs);
            r == if before == [] then base else Some(Joined(Backwards(before)) + base.GetOr(""))
  {
    hide Applies, Applicable, Joined, Backwards;
    r := base;
    NoneApplicable(ovs);
    for i := 0 to |ds|
      invariant var before := Applicable(ds[..i], ovs);
                r ==
                if before == [] then base else Some(Joined(Backwards(before)) + base.GetOr(""))
    {
      var before := Applicable(ds[..i], ovs);
      ApplicablePush(ds[..i], ds[i], ovs);
      BackwardsPush(before, ds[i].text);
      JoinedPrepend(ds[i].text, Backwards(before));
      assert ds[..i + 1] == ds[..i] + [ds[i]] && before + [] == before;
      JoinedEmpty();
      assert ds[i].text + (Joined(Backwards(before)) + base.GetOr("")) ==
             ds[i].text + Joined(Backwards(before)) + base.GetOr("");
      assert ds[i].text + "" == ds[i].text;
      if Applies(ds[i], ovs) {
        r := Some(ds[i].text + r.GetOr(""));
      }
    }
    assert ds[..|ds|] == ds;
  }

  lemma DecoratedPlain(base: Option<string>, ovs: seq<string>)
    ensures Decorated(base, NO_FLAGS, ovs) == base && Local(NO_FLAGS, false) == Local(NO_FLAGS, true) == None
  {
    assert base.Some? ==> "" + base.value + "" == base.value;
  }

  lemma NoneApplicable(ovs: seq<string>)
    ensures Applicable([], ovs) == []
  {
  }
}
