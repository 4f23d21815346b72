/** Reading file system events: a stream of binary records is cut up, and a batch may drop repeated events. */
module Notifier {
  import opened Collections
  import opened RawEvents

  const TWO_31 := 0x8000_0000
  const TWO_32 := 0x1_0000_0000
  const HEADER := 16

  /** One record as the kernel writes it; the name is padded with zero bytes. */
  datatype Record = Record(wd: int, mask: int, cookie: int, name: seq<byte>)

  ghost predicate Encodable(r: Record) {
    -TWO_31 <= r.wd < TWO_31 && 0 <= r.mask < TWO_32 && 0 <= r.cookie < TWO_32 && |r.name| < TWO_32
  }

  /** The event made of a record: its name without the padding. */
  function ToEvent(r: Record): RawEvent {
    RawEvent(r.wd, r.mask, r.cookie, WithoutPadding(r.name))
  }

  /** `rstrip('\0')` */
  function WithoutPadding(name: seq<byte>): seq<byte> {
    if name != [] && name[|name| - 1] == 0 then WithoutPadding(name[..|name| - 1]) else name
  }

  /** The event has the numbers of its record, and of the name all but the zeros it ends in. */
  lemma {:induction false} EventOfRecord(r: Record)
    ensures var e := ToEvent(r);
            && e.wd == r.wd && e.mask == r.mask && e.cookie == r.cookie
            && |e.name| <= |r.name| && e.name == r.name[..|e.name|]
            && (forall i :: |e.name| <= i < |r.name| ==> r.name[i] == 0)
            && (e.name != [] ==> e.name[|e.name| - 1] != 0)
    decreases |r.name|
  {
    if r.name != [] && r.name[|r.name| - 1] == 0 {
      EventOfRecord(r.(name := r.name[..|r.name| - 1]));
    }
  }

  // ---------- four bytes, the lowest first ----------

  function Number(b: seq<byte>): (n: int)
    requires |b| == 4
    ensures 0 <= n < TWO_32
  {
    (b[0] as int) + 0x100 * (b[1] as int) + 0x1_0000 * (b[2] as int) + 0x100_0000 * (b[3] as int)
  }

  function Bytes(n: int): (b: seq<byte>)
    requires 0 <= n < TWO_32
    ensures |b| == 4
  {
    [n % 0x100, n / 0x100 % 0x100, n / 0x1_0000 % 0x100, n / 0x100_0000]
  }

  lemma NumberOfBytes(n: int)
    requires 0 <= n < TWO_32
    ensures Number(Bytes(n)) == n
  {
    assert n / 0x1_0000 == n / 0x100 / 0x100 && n / 0x100_0000 == n / 0x1_0000 / 0x100;
  }

  lemma BytesOfNumber(b: seq<byte>)
    requires |b| == 4
    ensures Bytes(Number(b)) == b
  {
    var n := Number(b);
    var b1: int, b2: int, b3: int := b[1], b[2], b[3];
    assert n / 0x100 == b1 + 0x100 * b2 + 0x1_0000 * b3;
    assert n / 0x1_0000 == b2 + 0x100 * b3;
    assert n / 0x100_0000 == b3;
  }

  function Signed(n: int): int {
    if n < TWO_31 then n else n - TWO_32
  }

  function Unsigned(i: int): int {
    if i < 0 then i + TWO_32 else i
  }

  // ---------- records ----------

  function Encode(r: Record): (b: seq<byte>)
    requires Encodable(r)
    ensures |b| == HEADER + |r.name|
  {
    Bytes(Unsigned(r.wd)) + Bytes(r.mask) + Bytes(r.cookie) + Bytes(|r.name|) + r.name
  }

  function EncodeAll(rs: seq<Record>): seq<byte>
    requires forall r :: r in rs ==> Encodable(r)
  {
    if rs == [] then [] else Encode(rs[0]) + EncodeAll(rs[1..])
  }

  /** The record at a place in the buffer, if all of it is there. */
  function RecordAt(b: seq<byte>, at: nat): (r: Option<Record>)
    ensures r.Some? ==> Encodable(r.value) && at + HEADER + |r.value.name| <= |b|
  {
    if at + HEADER > |b| then None
    else
      var n := Number(b[at + 12..at + 16]);
      if at + HEADER + n > |b| then None
      else Some(Record(Signed(Number(b[at..at + 4])), Number(b[at + 4..at + 8]), Number(b[at + 8..at + 12]),
          b[at + HEADER..at + HEADER + n]))
  }

  /** The records from a place on, and whether they end exactly where they should. */
  function Parse(b: seq<byte>, at: nat, size: nat): (p: (seq<Record>, bool))
    requires |b| <= size
    ensures forall r :: r in p.0 ==> Encodable(r)
    decreases size - at
  {
    if at >= size then ([], true)
    else match RecordAt(b, at)
      case None => ([], false)
      case Some(r) => var p := Parse(b, at + HEADER + |r.name|, size); ([r] + p.0, p.1)
  }

  /** Four bytes of a buffer as a number, the lowest first. */
  ghost function FourFrom(b: seq<byte>, i: nat): int
    requires i + 4 <= |b|
  {
    var b0: int, b1: int, b2: int, b3: int := b[i], b[i + 1], b[i + 2], b[i + 3];
    b0 + 256 * b1 + 256 * 256 * b2 + 256 * 256 * 256 * b3
  }

  /**
   Where the fields of a record are: four numbers of four bytes, for the watch, the mask, the cookie
   and the length of the name, and then the name. A watch whose highest bit is set is negative.
   */
  lemma FieldPlaces(b: seq<byte>)
    ensures RecordAt(b, 0).Some? <==> |b| >= 16 && |b| >= 16 + FourFrom(b, 12)
    ensures RecordAt(b, 0).Some? ==>
            var r := RecordAt(b, 0).value;
            && r.wd == FourFrom(b, 0) - (if b[3] < 128 then 0 else 0x1_0000_0000)
            && r.mask == FourFrom(b, 4) && r.cookie == FourFrom(b, 8) && |r.name| == FourFrom(b, 12)
            && r.name == b[16..16 + |r.name|]
  {
  }

  lemma Fields(r: Record, rest: seq<byte>)
    requires Encodable(r)
    ensures var b := Encode(r) + rest;
            && b[0..4] == Bytes(Unsigned(r.wd)) && b[4..8] == Bytes(r.mask) && b[8..12] == Bytes(r.cookie) &&
               b[12..16] == Bytes(|r.name|)
            && b[16..16 + |r.name|] == r.name
  {
  }

  lemma RecordAtStart(r: Record, rest: seq<byte>)
    requires Encodable(r)
    ensures RecordAt(Encode(r) + rest, 0) == Some(r)
  {
    hide Encode, Bytes, Number;
    Fields(r, rest);
    NumberOfBytes(Unsigned(r.wd));
    NumberOfBytes(r.mask);
    NumberOfBytes(r.cookie);
    NumberOfBytes(|r.name|);
  }

  /** A record depends only on what comes from its place on. */
  lemma RecordAtDrop(b: seq<byte>, at: nat, k: nat)
    requires k <= at && k <= |b|
    ensures RecordAt(b, at) == RecordAt(b[k..], at - k)
  {
    hide Number;
    if at + HEADER <= |b| {
      var c, i := b[k..], at - k;
      assert c[i..i + 4] == b[at..at + 4] && c[i + 4..i + 8] == b[at + 4..at + 8];
      assert c[i + 8..i + 12] == b[at + 8..at + 12] && c[i + 12..i + 16] == b[at + 12..at + 16];
      var n := Number(b[at + 12..at + 16]);
      if at + HEADER + n <= |b| {
        assert c[i + HEADER..i + HEADER + n] == b[at + HEADER..at + HEADER + n];
      }
    }
  }

  lemma {:induction false} ParseDrop(b: seq<byte>, at: nat, size: nat, k: nat)
    requires |b| <= size && k <= at && k <= |b|
    ensures Parse(b, at, size) == Parse(b[k..], at - k, size - k)
    decreases size - at
  {
    hide RecordAt;
    if at < size {
      RecordAtDrop(b, at, k);
      match RecordAt(b, at)
      case None =>
      case Some(r) => ParseDrop(b, at + HEADER + |r.name|, size, k);
    }
  }

  lemma ParseFirst(r: Record, rest: seq<byte>)
    requires Encodable(r)
    ensures var b, p := Encode(r) + rest, Parse(rest, 0, |rest|);
            Parse(b, 0, |b|) == ([r] + p.0, p.1)
  {
    hide RecordAt, Encode;
    var b, n := Encode(r) + rest, HEADER + |r.name|;
    RecordAtStart(r, rest);
    assert b[n..] == rest;
    ParseDrop(b, n, |b|, n);
  }

  /** Records that were written one after another are read one after another. */
  lemma {:induction false} ParseEncoded(rs: seq<Record>)
    requires forall r :: r in rs ==> Encodable(r)
    ensures Parse(EncodeAll(rs), 0, |EncodeAll(rs)|) == (rs, true)
  {
    if rs != [] {
      hide Encode, RecordAt;
      ParseEncoded(rs[1..]);
      ParseFirst(rs[0], EncodeAll(rs[1..]));
      assert [rs[0]] + rs[1..] == rs;
    }
  }

  lemma EncodeRecordAt(b: seq<byte>)
    requires RecordAt(b, 0).Some?
    ensures var r := RecordAt(b, 0).value; Encode(r) == b[..HEADER + |r.name|]
  {
    hide Number, Bytes;
    BytesOfNumber(b[0..4]);
    BytesOfNumber(b[4..8]);
    BytesOfNumber(b[8..12]);
    BytesOfNumber(b[12..16]);
    var r := RecordAt(b, 0).value;
    assert Unsigned(r.wd) == Number(b[0..4]);
    assert b[0..4] + b[4..8] + b[8..12] + b[12..16] + b[16..16 + |r.name|] == b[..16 + |r.name|];
  }

  lemma ParseStep(b: seq<byte>, at: nat, size: nat)
    requires |b| <= size && at < size
    ensures var r := RecordAt(b, at);
            if r.None? then Parse(b, at, size) == ([], false)
            else
              var p := Parse(b, at + HEADER + |r.value.name|, size);
              Parse(b, at, size) == ([r.value] + p.0, p.1)
  {
    hide RecordAt;
  }

  /** A buffer that is read to its end is nothing but the records read. */
  lemma {:induction false} ParsedIsEncoded(b: seq<byte>)
    ensures Parse(b, 0, |b|).1 ==> EncodeAll(Parse(b, 0, |b|).0) == b
    decreases |b|
  {
    hide Encode, RecordAt;
    if |b| > 0 {
      ParseStep(b, 0, |b|);
      if RecordAt(b, 0).Some? {
        hide Parse;
        var r, rest := ParseHead(b);
        ParsedIsEncoded(rest);
        EncodeAllPush(r, Parse(rest, 0, |rest|).0);
      }
    }
  }

  lemma ParseHead(b: seq<byte>) returns (r: Record, rest: seq<byte>)
    requires |b| > 0 && RecordAt(b, 0).Some?
    ensures Encodable(r) && Encode(r) + rest == b && |rest| < |b|
    ensures var p := Parse(rest, 0, |rest|); Parse(b, 0, |b|) == ([r] + p.0, p.1)
  {
    hide Encode, RecordAt, Parse;
    r := RecordAt(b, 0).value;
    var n := HEADER + |r.name|;
    rest := b[n..];
    ParseStep(b, 0, |b|);
    ParseDrop(b, n, |b|, n);
    EncodeRecordAt(b);
    assert b[..n] + b[n..] == b;
  }

  lemma EncodeAllPush(r: Record, rs: seq<Record>)
    requires Encodable(r) && forall x :: x in rs ==> Encodable(x)
    ensures EncodeAll([r] + rs) == Encode(r) + EncodeAll(rs)
  {
    hide Encode;
    assert ([r] + rs)[1..] == rs;
  }

  /** Reading succeeds exactly on the buffers that consist of whole records. */
  lemma WholeRecords(b: seq<byte>)
    ensures Parse(b, 0, |b|).1 <==>
            exists rs: seq<Record> :: (forall r :: r in rs ==> Encodable(r)) && EncodeAll(rs) == b
  {
    ParsedIsEncoded(b);
    if rs: seq<Record> :| (forall r :: r in rs ==> Encodable(r)) && EncodeAll(rs) == b {
      ParseEncoded(rs);
    }
  }

  // ---------- repeated events ----------

  function Texts(events: seq<RawEvent>): set<string> {
    set e | e in events :: Text(e)
  }

  /** The events whose text was not seen before, in their order. */
  function FirstOnly(events: seq<RawEvent>, seen: set<string>): seq<RawEvent> {
    if events == [] then []
    else
      var n := |events| - 1;
      FirstOnly(events[..n], seen) + if Text(events[n]) in seen + Texts(events[..n]) then [] else [events[n]]
  }

  lemma FirstOnlyPush(events: seq<RawEvent>, e: RawEvent, seen: set<string>)
    ensures FirstOnly(events + [e], seen) ==
            FirstOnly(events, seen) + if Text(e) in seen + Texts(events) then [] else [e]
  {
    assert (events + [e])[..|events|] == events;
  }

  lemma {:induction false} FirstOnlyTexts(events: seq<RawEvent>, seen: set<string>)
    ensures Texts(FirstOnly(events, seen)) == Texts(events) - seen
  {
    hide Texts, Text;
    NoneInEmpty();
    if events != [] {
      var n := |events| - 1;
      var front, e := events[..n], events[n];
      FirstOnlyTexts(front, seen);
      assert events == front + [e];
      FirstOnlyPush(front, e, seen);
      hide FirstOnly;
      TextsPush(front, e);
      var kept := FirstOnly(front, seen);
      TextsPush(kept, e);
      assert kept + [] == kept;
    }
  }

  lemma {:induction false} FirstOnlyOnce(events: seq<RawEvent>, seen: set<string>)
    ensures NoneRepeated(FirstOnly(events, seen)) && forall e :: e in FirstOnly(events, seen) ==> e in events
  {
    if events != [] {
      hide Texts, NoneRepeated, Text;
      var n := |events| - 1;
      FirstOnlyOnce(events[..n], seen);
      FirstOnlyTexts(events[..n], seen);
      assert forall e :: e in events[..n] ==> e in events;
      if Text(events[n]) !in seen + Texts(events[..n]) {
        NoneRepeatedPush(FirstOnly(events[..n], seen), events[n]);
      }
    }
  }

  ghost predicate NoneRepeated(events: seq<RawEvent>) {
    forall i, j :: 0 <= i < j < |events| ==> Text(events[i]) != Text(events[j])
  }

  lemma NoneRepeatedPush(events: seq<RawEvent>, e: RawEvent)
    requires NoneRepeated(events) && Text(e) !in Texts(events)
    ensures NoneRepeated(events + [e])
  {
    hide Text;
    assert forall i :: 0 <= i < |events| ==> Text(events[i]) in Texts(events);
  }

  lemma InTexts(events: seq<RawEvent>, e: RawEvent)
    ensures Text(e) in Texts(events) <==> exists f :: f in events && LookAlike(f, e)
  {
    hide Text, LookAlike;
    forall f | f in events ensures Text(f) == Text(e) <==> LookAlike(f, e) {
      TextTells(f, e);
    }
  }

  lemma KeptIsNew(events: seq<RawEvent>, before: seq<RawEvent>)
    ensures var kept := FirstOnly(events, Texts(before));
            && (forall e :: e in kept ==> e in events && forall f :: f in before ==> !LookAlike(f, e))
            && (forall i, j :: 0 <= i < j < |kept| ==> !LookAlike(kept[i], kept[j]))
  {
    hide Text, FirstOnly, LookAlike;
    FirstOnlyTexts(events, Texts(before));
    FirstOnlyOnce(events, Texts(before));
    var kept := FirstOnly(events, Texts(before));
    forall e | e in kept ensures e in events && forall f :: f in before ==> !LookAlike(f, e) {
      assert Text(e) in Texts(kept);
      InTexts(before, e);
    }
    forall i, j | 0 <= i < j < |kept| ensures !LookAlike(kept[i], kept[j]) {
      TextTells(kept[i], kept[j]);
    }
  }

  /**
   What is dropped looks like an event that was there before, or is kept; of those that are kept
   no two look alike, and none looks like one that was there before.
   */
  lemma FirstOnlyFacts(events: seq<RawEvent>, before: seq<RawEvent>)
    ensures var kept := FirstOnly(events, Texts(before));
            && (forall e :: e in kept ==> e in events && forall f :: f in before ==> !LookAlike(f, e))
            && (forall i, j :: 0 <= i < j < |kept| ==> !LookAlike(kept[i], kept[j]))
            && (forall e :: e in events ==> exists f :: f in before + kept && LookAlike(f, e))
  {
    hide Text, FirstOnly, LookAlike;
    KeptIsNew(events, before);
    FirstOnlyTexts(events, Texts(before));
    var kept := FirstOnly(events, Texts(before));
    forall e | e in events ensures exists f :: f in before + kept && LookAlike(f, e) {
      assert Text(e) in Texts(events);
      InTexts(before, e);
      InTexts(kept, e);
    }
  }

  /** What coalescing is to leave: each event that differs from all before it in some field. */
  function Unique(events: seq<RawEvent>, before: seq<RawEvent>): seq<RawEvent> {
    if events == [] then []
    else
      var n := |events| - 1;
      Unique(events[..n], before) + if events[n] in before + events[..n] then [] else [events[n]]
  }

  lemma {:induction false} UniqueFacts(events: seq<RawEvent>, before: seq<RawEvent>)
    ensures NoDup(Unique(events, before)) && forall e :: e in Unique(events, before) <==> e in events && e !in before
  {
    if events != [] {
      var n := |events| - 1;
      UniqueFacts(events[..n], before);
      assert events == events[..n] + [events[n]];
      if events[n] !in before + events[..n] {
        NoDupPush(Unique(events[..n], before), events[n]);
      }
    }
  }

  /** No new event looks like another one, of the batch or of what was there before. */
  ghost predicate AllTold(events: seq<RawEvent>, before: seq<RawEvent>) {
    forall e, f :: e in events && e !in before && f in before + events && LookAlike(f, e) ==> f == e
  }

  lemma {:induction false} ToldIsUnique(events: seq<RawEvent>, before: seq<RawEvent>)
    requires AllTold(events, before)
    ensures FirstOnly(events, Texts(before)) == Unique(events, before)
  {
    if events != [] {
      hide Texts, Text;
      var n := |events| - 1;
      var front, e := events[..n], events[n];
      assert events == front + [e];
      ToldIsUnique(front, before);
      InTexts(before, e);
      InTexts(front, e);
      assert e in before + front ==> LookAlike(e, e);
      assert forall f :: f in before + front ==> f in before + events;
    }
  }

  lemma Mirrored(e: RawEvent, f: RawEvent)
    ensures LookAlike(e, f) <==> LookAlike(f, e)
  {
  }

  lemma UntoldIsLost(events: seq<RawEvent>, before: seq<RawEvent>, e: RawEvent, f: RawEvent)
    requires e in events && e !in before && f in before + events && LookAlike(f, e) && f != e
    ensures FirstOnly(events, Texts(before)) != Unique(events, before)
  {
    hide FirstOnly, Unique, Texts, Text, NoDup;
    KeptIsNew(events, before);
    UniqueFacts(events, before);
    var kept, unique := FirstOnly(events, Texts(before)), Unique(events, before);
    if f in before {
      assert e in unique && e !in kept;
    } else {
      var j :| 0 <= j < |unique| && unique[j] == e;
      var i :| 0 <= i < |unique| && unique[i] == f;
      Mirrored(f, e);
      hide LookAlike;
      assert LookAlike(unique[i], unique[j]) && LookAlike(unique[j], unique[i]);
    }
  }

  /** Coalescing leaves what it is to leave exactly if all new events are told apart by their text. */
  lemma CoalescedExactly(events: seq<RawEvent>, before: seq<RawEvent>)
    ensures FirstOnly(events, Texts(before)) == Unique(events, before) <==> AllTold(events, before)
  {
    if AllTold(events, before) {
      ToldIsUnique(events, before);
    } else {
      hide LookAlike;
      var e, f :| e in events && e !in before && f in before + events && LookAlike(f, e) && f != e;
      UntoldIsLost(events, before, e, f);
    }
  }

  /** A directory was opened, and in it one whose name is two quotes: the second event is dropped. */
  lemma QuotesLost()
    ensures var itself, inner := RawEvent(1, 0x4000_0020, 0, []), RawEvent(1, 0x4000_0020, 0, QUOTES);
            Unique([itself, inner], []) == [itself, inner] && FirstOnly([itself, inner], {}) == [itself]
  {
    var itself, inner := RawEvent(1, 0x4000_0020, 0, []), RawEvent(1, 0x4000_0020, 0, QUOTES);
    hide Text;
    TextTells(itself, inner);
    assert [itself, inner][..1] == [itself] && [itself][..0] == [];
    assert itself in [itself];
    assert Unique([itself], []) == [itself] && FirstOnly([itself], {}) == [itself];
  }

  lemma NoneInEmpty()
    ensures Texts([]) == {}
  {
  }

  /** What a batch of events adds to the queue. */
  function Queued(events: seq<RawEvent>, seen: set<string>, coalesce: bool): seq<RawEvent> {
    if coalesce then FirstOnly(events, seen) else events
  }

  function Seen(events: seq<RawEvent>, seen: set<string>, coalesce: bool): set<string> {
    if coalesce then seen + Texts(events) else seen
  }

  lemma TextsPush(events: seq<RawEvent>, e: RawEvent)
    ensures Texts(events + [e]) == Texts(events) + {Text(e)}
  {
    hide Text;
    assert forall x :: x in events ==> x in events + [e];
    assert e in events + [e];
  }

  function ToEvents(rs: seq<Record>): (es: seq<RawEvent>)
    ensures |es| == |rs| && forall i :: 0 <= i < |rs| ==> es[i] == ToEvent(rs[i])
  {
    seq(|rs|, i requires 0 <= i < |rs| => ToEvent(rs[i]))
  }

  datatype Watches = Watches(ignoring: bool, known: set<int>)

  /** `mask & IN_Q_OVERFLOW` */
  predicate Overflow(mask: int) {
    mask / 0x4000 % 2 == 1
  }

  /** An event reaches a handler if its watch is known, or if it says that the queue ran over. */
  function Delivered(q: seq<RawEvent>, w: Watches): seq<RawEvent> {
    if q == [] then []
    else (if !w.ignoring && (q[0].wd in w.known || Overflow(q[0].mask)) then [q[0]] else []) + Delivered(q[1..], w)
  }

  class Notifier {
    const threshold: int
    var coalesce: bool
    var eventq: seq<RawEvent>
    var eventset: set<string>
    ghost var batch: seq<RawEvent>     // the events read while coalescing since a batch was processed

    ghost predicate Valid()
      reads this
    {
      eventset == Texts(batch)
    }

    constructor (threshold: int)
      ensures this.threshold == threshold && !coalesce && eventq == [] && batch == [] && Valid()
    {
      this.threshold, coalesce, eventq, eventset, batch := threshold, false, [], {}, [];
    }

    /** Switched off, coalescing forgets what was read: any event is accepted once it is on again. */
    method CoalesceEvents(on: bool)
      requires Valid()
      modifies this`coalesce, this`eventset, this`batch
      ensures Valid() && coalesce == on && batch == if on then old(batch) else []
    {
      coalesce := on;
      if !on {
        eventset, batch := {}, [];
      }
    }

    /**
     All whole records of the buffer are queued in order, or when coalescing only those that look
     like none of this batch; what is left over raises an error after that. Those are the events
     that are new by their fields exactly if all new ones are told apart by their text.
     */
    method ReadEvents(r: seq<byte>, queueSize: nat) returns (error: bool)
      requires |r| <= queueSize && Valid()
      modifies this`eventq, this`eventset, this`batch
      ensures Valid()
      ensures queueSize < threshold ==> !error && eventq == old(eventq) && batch == old(batch)
      ensures queueSize >= threshold ==>
                var (rs, whole) := Parse(r, 0, queueSize);
                var events := ToEvents(rs);
                && error == !whole
                && batch == (if coalesce then old(batch) + events else old(batch))
                && eventq == old(eventq) + (if coalesce then FirstOnly(events, Texts(old(batch))) else events)
                && (coalesce ==> (eventq == old(eventq) + Unique(events, old(batch)) <==> AllTold(events, old(batch))))
    {
      if queueSize < threshold {
        return false;
      }
      error := ReadRecords(r, queueSize);
      ghost var events := ToEvents(Parse(r, 0, queueSize).0);
      CaughtAll(old(eventq), old(eventset), Parse(r, 0, queueSize).0);
      if coalesce {
        TextsPlus(batch, events);
        batch := batch + events;
        CoalescedExactly(events, old(batch));
        SameFront(old(eventq), FirstOnly(events, Texts(old(batch))), Unique(events, old(batch)));
      }
    }

    method ReadRecords(r: seq<byte>, queueSize: nat) returns (error: bool)
      requires |r| <= queueSize
      modifies this`eventq, this`eventset
      ensures error == !Parse(r, 0, queueSize).1
      ensures Caught(old(eventq), old(eventset), Parse(r, 0, queueSize).0)
    {
      hide RecordAt, Parse, Encodable, HasRead, Notifier.Caught;
      var rsum: nat := 0;
      ghost var done: seq<Record> := [];
      CaughtNothing();
      ReadStart(r, queueSize);
      while rsum < queueSize
        invariant HasRead(r, queueSize, done, rsum)
        invariant Caught(old(eventq), old(eventset), done)
        decreases queueSize - rsum
      {
        ReadNext(r, queueSize, done, rsum);
        var record := RecordAt(r, rsum);
        if record.None? {
          return true;
        }
        Enqueue(record.value, old(eventq), old(eventset), done);
        done := done + [record.value];
        rsum := rsum + HEADER + |record.value.name|;
      }
      ReadEnd(r, queueSize, done, rsum);
      error := false;
    }

    /** The queue and the set of texts are what the records read so far make of those there were before. */
    ghost predicate Caught(q: seq<RawEvent>, seen: set<string>, done: seq<Record>)
      reads this
    {
      && eventq == q + Queued(ToEvents(done), seen, coalesce)
      && eventset == Seen(ToEvents(done), seen, coalesce)
    }

    lemma CaughtNothing()
      ensures Caught(eventq, eventset, [])
    {
      NothingQueued(eventq, eventset, coalesce);
    }

    lemma CaughtAll(q: seq<RawEvent>, seen: set<string>, done: seq<Record>)
      requires Caught(q, seen, done)
      ensures eventq == q + Queued(ToEvents(done), seen, coalesce)
      ensures eventset == Seen(ToEvents(done), seen, coalesce)
    {
    }

    method Enqueue(r: Record, ghost q: seq<RawEvent>, ghost seen: set<string>, ghost done: seq<Record>)
      requires Caught(q, seen, done)
      modifies this`eventq, this`eventset
      ensures Caught(q, seen, done + [r])
    {
      var e := ToEvent(r);
      ghost var before := ToEvents(done);
      ToEventsPush(done, r);
      TextsPush(before, e);
      FirstOnlyPush(before, e, seen);
      hide ToEvents, ToEvent, Texts, FirstOnly, Text;
      if coalesce {
        if Text(e) !in eventset {
          eventset := eventset + {Text(e)};
          eventq := eventq + [e];
        }
      } else {
        eventq := eventq + [e];
      }
    }

    /** The queue is emptied, and after the batch any event is accepted again. */
    method ProcessEvents(w: Watches) returns (handled: seq<RawEvent>)
      requires Valid()
      modifies this`eventq, this`eventset, this`batch
      ensures Valid() && eventq == [] && handled == Delivered(old(eventq), w)
      ensures batch == if coalesce then [] else old(batch)
    {
      handled := [];
      assert [] + Delivered(eventq, w) == Delivered(eventq, w);
      while eventq != []
        invariant Delivered(old(eventq), w) == handled + Delivered(eventq, w)
        invariant eventset == old(eventset) && batch == old(batch)
        decreases |eventq|
      {
        var e := eventq[0];
        DeliveredStep(handled, eventq, w);
        eventq := eventq[1..];
        if w.ignoring {
          continue;
        }
        if e.wd !in w.known && !Overflow(e.mask) {
          continue;
        }
        handled := handled + [e];
      }
      assert handled + [] == handled;
      if coalesce {
        eventset, batch := {}, [];
      }
    }
  }

  /** One bit of the mask decides, whatever is below and above it. */
  lemma OverflowBit(below: nat, above: nat)
    requires below < 0x4000
    ensures Overflow(above * 0x8000 + 0x4000 + below) && !Overflow(above * 0x8000 + below)
  {
    assert (above * 0x8000 + 0x4000 + below) / 0x4000 == 2 * above + 1;
    assert (above * 0x8000 + below) / 0x4000 == 2 * above;
  }

  /** Who gets what: everything whose watch is known or that tells of an overflow, unless all is ignored. */
  lemma {:induction false} DeliveredFacts(q: seq<RawEvent>, e: RawEvent, w: Watches)
    ensures multiset(Delivered(q, w))[e] ==
            if !w.ignoring && (e.wd in w.known || Overflow(e.mask)) then multiset(q)[e] else 0
  {
    hide Overflow;
    if q != [] {
      assert q == [q[0]] + q[1..];
      DeliveredFacts(q[1..], e, w);
      assert multiset([q[0]] + Delivered(q[1..], w)) == multiset([q[0]]) + multiset(Delivered(q[1..], w));
      assert multiset([] + Delivered(q[1..], w)) == multiset(Delivered(q[1..], w));
    }
  }

  /** What came first is delivered first. */
  lemma {:induction false} DeliveredInOrder(q: seq<RawEvent>, p: seq<RawEvent>, w: Watches)
    ensures Delivered(q + p, w) == Delivered(q, w) + Delivered(p, w)
  {
    hide Overflow;
    if q == [] {
      assert q + p == p && [] + Delivered(p, w) == Delivered(p, w);
    } else {
      assert (q + p)[1..] == q[1..] + p;
      DeliveredInOrder(q[1..], p, w);
    }
  }

  lemma DeliveredStep(handled: seq<RawEvent>, q: seq<RawEvent>, w: Watches)
    requires q != []
    ensures handled + Delivered(q, w) ==
            (if !w.ignoring && (q[0].wd in w.known || Overflow(q[0].mask)) then handled + [q[0]] else handled) +
                Delivered(q[1..], w)
  {
    var rest := Delivered(q[1..], w);
    assert handled + ([q[0]] + rest) == handled + [q[0]] + rest;
    assert [] + rest == rest;
  }

  lemma NothingQueued(q: seq<RawEvent>, seen: set<string>, coalesce: bool)
    ensures ToEvents([]) == [] && q + Queued([], seen, coalesce) == q && Seen([], seen, coalesce) == seen
  {
    NoneInEmpty();
  }

  /** The records before a place are all there are, but for those from there on. */
  ghost predicate HasRead(b: seq<byte>, size: nat, done: seq<Record>, at: nat)
    requires |b| <= size
  {
    var p := Parse(b, at, size);
    Parse(b, 0, size) == (done + p.0, p.1)
  }

  lemma ReadStart(b: seq<byte>, size: nat)
    requires |b| <= size
    ensures HasRead(b, size, [], 0)
  {
    hide Parse;
    var p := Parse(b, 0, size);
    assert [] + p.0 == p.0;
  }

  lemma ReadNext(b: seq<byte>, size: nat, done: seq<Record>, at: nat)
    requires |b| <= size && at < size && HasRead(b, size, done, at)
    ensures var r := RecordAt(b, at);
            if r.None? then Parse(b, 0, size) == (done, false)
                else HasRead(b, size, done + [r.value], at + HEADER + |r.value.name|)
  {
    ParseStep(b, at, size);
    hide Parse, RecordAt;
    var r := RecordAt(b, at);
    if r.None? {
      assert done + [] == done;
    } else {
      var rest := Parse(b, at + HEADER + |r.value.name|, size).0;
      assert done + ([r.value] + rest) == done + [r.value] + rest;
    }
  }

  lemma ReadEnd(b: seq<byte>, size: nat, done: seq<Record>, at: nat)
    requires |b| <= size <= at && HasRead(b, size, done, at)
    ensures Parse(b, 0, size) == (done, true)
  {
    assert Parse(b, at, size) == ([], true);
    assert done + [] == done;
  }

  lemma TextsPlus(a: seq<RawEvent>, b: seq<RawEvent>)
    ensures Texts(a + b) == Texts(a) + Texts(b)
  {
    hide Text;
  }

  lemma SameFront(q: seq<RawEvent>, a: seq<RawEvent>, b: seq<RawEvent>)
    ensures q + a == q + b <==> a == b
  {
    assert (q + a)[|q|..] == a && (q + b)[|q|..] == b;
  }

  lemma ToEventsPush(rs: seq<Record>, r: Record)
    ensures ToEvents(rs + [r]) == ToEvents(rs) + [ToEvent(r)]
  {
  }
}
