/** Events as the kernel reports them, and the text that stands for one when repeated events are dropped. */
module RawEvents {
  import opened Collections

  type byte = x: int | 0 <= x < 256

  datatype RawEvent = RawEvent(wd: int, mask: int, cookie: int, name: seq<byte>)

  // ---------- numerals ----------

  function Digit(d: int): char
    requires 0 <= d < 16
  {
    if d < 10 then (d + 48) as char else (d + 87) as char
  }

  function Digits(n: nat, base: nat): string
    requires (base == 10 || base == 16)
  {
    if n < base then [Digit(n)] else Digits(n / base, base) + [Digit(n % base)]
  }

  /** `str(i)` */
  function Decimal(i: int): string {
    if i < 0 then "-" + Digits(-i, 10) else Digits(i, 10)
  }

  /** `hex(i)` */
  function Hex(i: int): string {
    if i < 0 then "-0x" + Digits(-i, 16) else "0x" + Digits(i, 16)
  }

  ghost predicate IsDigit(c: char) {
    '0' <= c <= '9' || 'a' <= c <= 'f'
  }

  lemma {:induction false} DigitsPlain(n: nat, base: nat)
    requires (base == 10 || base == 16)
    ensures Digits(n, base) != "" && forall i :: 0 <= i < |Digits(n, base)| ==> IsDigit(Digits(n, base)[i])
  {
    if n >= base {
      DigitsPlain(n / base, base);
    }
  }

  lemma DigitTells(d: int, e: int)
    requires 0 <= d < 16 && 0 <= e < 16 && Digit(d) == Digit(e)
    ensures d == e
  {
  }

  lemma Divide(n: nat, base: nat)
    requires (base == 10 || base == 16) && n >= base
    ensures 0 < n / base < n && n == base * (n / base) + n % base
  {
  }

  lemma DigitsStep(n: nat, base: nat)
    requires (base == 10 || base == 16) && n >= base
    ensures 0 < n / base < n && n == base * (n / base) + n % base
    ensures var a := Digits(n, base); |a| > 1 && a[..|a| - 1] == Digits(n / base, base) && a[|a| - 1] == Digit(n % base)
  {
    Divide(n, base);
    DigitsPlain(n / base, base);
    var a, front := Digits(n, base), Digits(n / base, base);
    assert a == front + [Digit(n % base)];
    hide Digits, Digit;
    assert a[..|a| - 1] == front;
  }

  lemma {:induction false} DigitsTell(m: nat, n: nat, base: nat)
    requires (base == 10 || base == 16) && Digits(m, base) == Digits(n, base)
    ensures m == n
  {
    hide Digit;
    if m >= base {
      DigitsStep(m, base);
    }
    if n >= base {
      DigitsStep(n, base);
    }
    if m >= base && n >= base {
      hide Digits;
      DigitsTell(m / base, n / base, base);
      DigitTells(m % base, n % base);
    } else if m < base && n < base {
      DigitTells(m, n);
    }
  }

  lemma DecimalTells(i: int, j: int)
    ensures Decimal(i) == Decimal(j) ==> i == j
    ensures forall c :: c in Decimal(i) ==> c != ' ' && c != '='
  {
    var m, n := if i < 0 then -i else i, if j < 0 then -j else j;
    DigitsPlain(m, 10);
    DigitsPlain(n, 10);
    if Decimal(i) == Decimal(j) {
      assert Decimal(i)[0] == '-' <==> i < 0;
      assert Decimal(j)[0] == '-' <==> j < 0;
      assert i < 0 ==> Decimal(i)[1..] == Digits(m, 10) && Decimal(j)[1..] == Digits(n, 10);
      DigitsTell(m, n, 10);
    }
  }

  lemma HexTells(i: int, j: int)
    ensures Hex(i) == Hex(j) ==> i == j
    ensures forall c :: c in Hex(i) ==> c != ' '
  {
    var m, n := if i < 0 then -i else i, if j < 0 then -j else j;
    DigitsPlain(m, 16);
    DigitsPlain(n, 16);
    if Hex(i) == Hex(j) {
      assert Hex(i)[0] == '-' <==> i < 0;
      assert Hex(j)[0] == '-' <==> j < 0;
      assert i < 0 ==> Hex(i)[3..] == Digits(m, 16) && Hex(j)[3..] == Digits(n, 16);
      assert i >= 0 ==> Hex(i)[2..] == Digits(m, 16) && Hex(j)[2..] == Digits(n, 16);
      DigitsTell(m, n, 16);
    }
  }

  // ---------- the text of an event ----------

  /** A name of two quote characters. */
  const QUOTES: seq<byte> := [39, 39]

  function AsText(name: seq<byte>): string {
    seq(|name|, i requires 0 <= i < |name| => name[i] as char)
  }

  /** An empty name is shown as two quotes. */
  function Shown(name: seq<byte>): string {
    if name == [] then "''" else AsText(name)
  }

  /** `str(event)`: the fields by name, the mask in hexadecimal. */
  function Text(e: RawEvent): string {
    "<_RawEvent cookie=" + (Decimal(e.cookie) + " " +
        ("mask=" + (Hex(e.mask) + " " + ("name=" + (Named(e) + "=" + (Decimal(e.wd) + " >"))))))
  }

  function Named(e: RawEvent): string {
    Shown(e.name) + " wd"
  }

  lemma AsTextTells(a: seq<byte>, b: seq<byte>)
    ensures AsText(a) == AsText(b) <==> a == b
  {
    if AsText(a) == AsText(b) {
      assert |a| == |AsText(a)| == |b|;
      forall i | 0 <= i < |a| ensures a[i] == b[i] {
        assert AsText(a)[i] == AsText(b)[i];
      }
    }
  }

  lemma ShownTells(a: seq<byte>, b: seq<byte>)
    ensures Shown(a) == Shown(b) <==> a == b || (a in {[], QUOTES} && b in {[], QUOTES})
  {
    assert AsText(QUOTES) == "''";
    AsTextTells(a, b);
    AsTextTells(a, QUOTES);
    AsTextTells(b, QUOTES);
  }

  lemma CutBefore(p: string, a: string, b: string)
    ensures p + a == p + b <==> a == b
  {
    assert (p + a)[|p|..] == a && (p + b)[|p|..] == b;
  }

  lemma CutBehind(a: string, b: string, p: string)
    ensures a + p == b + p <==> a == b
  {
    assert (a + p)[..|a + p| - |p|] == a && (b + p)[..|b + p| - |p|] == b;
  }

  /** What stands before the first blank, and what behind it. */
  lemma CutAtBlank(a: string, x: string, b: string, y: string)
    requires ' ' !in a && ' ' !in b
    ensures a + " " + x == b + " " + y <==> a == b && x == y
  {
    var s, t := a + " " + x, b + " " + y;
    assert forall i :: 0 <= i < |a| ==> s[i] == a[i] && s[i] != ' ';
    assert forall i :: 0 <= i < |b| ==> t[i] == b[i] && t[i] != ' ';
    assert s[|a|] == ' ' && t[|b|] == ' ';
    if s == t {
      assert s[..|a|] == a && t[..|b|] == b && s[|a| + 1..] == x && t[|b| + 1..] == y;
    }
  }

  /** What stands behind the last equals sign, and what before it. */
  lemma CutAtEquals(a: string, x: string, b: string, y: string)
    requires '=' !in x && '=' !in y
    ensures a + "=" + x == b + "=" + y <==> a == b && x == y
  {
    var s, t := a + "=" + x, b + "=" + y;
    assert forall i :: |a| < i < |s| ==> s[i] == x[i - |a| - 1] && s[i] != '=';
    assert forall i :: |b| < i < |t| ==> t[i] == y[i - |b| - 1] && t[i] != '=';
    assert s[|a|] == '=' && t[|b|] == '=';
    if s == t {
      assert s[..|a|] == a && t[..|b|] == b && s[|a| + 1..] == x && t[|b| + 1..] == y;
    }
  }

  /** Equal but for an empty name and one of two quotes. */
  predicate LookAlike(e: RawEvent, f: RawEvent) {
    && e.wd == f.wd && e.mask == f.mask && e.cookie == f.cookie
    && (e.name == f.name || (e.name in {[], QUOTES} && f.name in {[], QUOTES}))
  }

  /** The text tells exactly the events that do not look alike. */
  lemma TextTells(e: RawEvent, f: RawEvent)
    ensures Text(e) == Text(f) <==> LookAlike(e, f)
  {
    hide Decimal, Hex, Shown;
    DecimalTells(e.cookie, f.cookie);
    DecimalTells(f.cookie, e.cookie);
    HexTells(e.mask, f.mask);
    HexTells(f.mask, e.mask);
    DecimalTells(e.wd, f.wd);
    DecimalTells(f.wd, e.wd);
    ShownTells(e.name, f.name);
    var e1, f1 := Decimal(e.wd) + " >", Decimal(f.wd) + " >";
    CutBehind(Decimal(e.wd), Decimal(f.wd), " >");
    CutBehind(Shown(e.name), Shown(f.name), " wd");
    CutAtEquals(Named(e), e1, Named(f), f1);
    var e2, f2 := Named(e) + "=" + e1, Named(f) + "=" + f1;
    CutBefore("name=", e2, f2);
    CutAtBlank(Hex(e.mask), "name=" + e2, Hex(f.mask), "name=" + f2);
    var e3, f3 := Hex(e.mask) + " " + ("name=" + e2), Hex(f.mask) + " " + ("name=" + f2);
    CutBefore("mask=", e3, f3);
    CutAtBlank(Decimal(e.cookie), "mask=" + e3, Decimal(f.cookie), "mask=" + f3);
    CutBefore("<_RawEvent cookie=", Decimal(e.cookie) + " " + ("mask=" + e3), Decimal(f.cookie) + " " + ("mask=" + f3));
  }
}
