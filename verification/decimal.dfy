/** Integers as the handlers write and read them: the template literal
    `${n}`, JavaScript's `parseInt`, and PostgreSQL's reading of a digit
    string as an integer. */
module Decimal {
  import opened Outcomes
  import opened Strings

  /** The value of `c` as a digit in base `radix` (10 or 16), or `radix`
      itself when `c` is not such a digit. */
  function DigitIn(c: char, radix: nat): (d: nat)
    requires radix == 10 || radix == 16
    ensures d <= radix
  {
    if '0' <= c <= '9' then c as int - '0' as int
    else if radix == 16 && 'a' <= c <= 'f' then c as int - 'a' as int + 10
    else if radix == 16 && 'A' <= c <= 'F' then c as int - 'A' as int + 10
    else radix
  }

  predicate AllRadixDigits(s: string, radix: nat)
    requires radix == 10 || radix == 16
  {
    forall i :: 0 <= i < |s| ==> DigitIn(s[i], radix) < radix
  }

  /** Positional value of a digit string, most significant digit first. */
  function ValueIn(s: string, radix: nat): nat
    requires radix == 10 || radix == 16
    requires AllRadixDigits(s, radix)
  {
    if |s| == 0 then 0
    else ValueIn(s[..|s| - 1], radix) * radix + DigitIn(s[|s| - 1], radix)
  }

  /** The integer a decimal digit string denotes; leading zeros are
      allowed, as when PostgreSQL casts the text `'0042'` to 42. */
  function Value(s: string): nat
    requires AllDigits(s)
  {
    ValueIn(s, 10)
  }

  function DigitChar(d: nat): (c: char)
    requires d < 10
    ensures IsDigit(c) && DigitIn(c, 10) == d
  {
    ('0' as int + d) as char
  }

  /** `${n}` for a non-negative integer: its shortest decimal spelling. */
  function Render(n: nat): (r: string)
    ensures IsDigitString(r)
    ensures |r| > 1 ==> r[0] != '0'
  {
    if n < 10 then [DigitChar(n)] else Render(n / 10) + [DigitChar(n % 10)]
  }

  /** `${i}` for any integer: a minus sign before the magnitude. */
  function IntToString(i: int): string {
    if i < 0 then "-" + Render(-i) else Render(i)
  }

  lemma ValueAppend(s: string, c: char)
    requires AllDigits(s) && IsDigit(c)
    ensures AllDigits(s + [c]) && Value(s + [c]) == 10 * Value(s) + DigitIn(c, 10)
  {
    assert (s + [c])[..|s|] == s;
  }

  /** Reading back what `${n}` wrote gives `n`. */
  lemma {:induction false} ValueOfRender(n: nat)
    ensures Value(Render(n)) == n
  {
    if n >= 10 {
      assert Render(n) == Render(n / 10) + [DigitChar(n % 10)];
      ValueOfRender(n / 10);
      ValueAppend(Render(n / 10), DigitChar(n % 10));
    } else {
      var r := Render(n);
      assert r == [DigitChar(n)] && r[..0] == [];
      assert Value(r) == ValueIn(r[..0], 10) * 10 + DigitIn(r[0], 10);
    }
  }

  /** Card numbers 10000..99999 are always spelled with exactly five digits. */
  lemma RenderFiveDigits(n: nat)
    requires 10000 <= n <= 99999
    ensures |Render(n)| == 5
  {
    assert |Render(n / 10000)| == 1;
    assert |Render(n / 1000)| == 2;
    assert |Render(n / 100)| == 3;
    assert |Render(n / 10)| == 4;
  }

  /** Number of leading base-`radix` digits of `s`. */
  function DigitPrefix(s: string, radix: nat): (n: nat)
    requires radix == 10 || radix == 16
    ensures n <= |s| && AllRadixDigits(s[..n], radix)
    ensures n < |s| ==> DigitIn(s[n], radix) == radix
  {
    if |s| > 0 && DigitIn(s[0], radix) < radix then
      var k := DigitPrefix(s[1..], radix);
      assert s[..k + 1] == [s[0]] + s[1..][..k];
      k + 1
    else 0
  }

  /** The digits-and-prefix part of `parseInt`, after the sign: a `0x`
      prefix selects base 16, and the longest run of digits after that is
      the value; anything after the run is ignored. */
  function ParseMagnitude(u: string): (r: Option<nat>)
    ensures IsDigitString(u) ==> r == Some(Value(u))
  {
    var hex := |u| >= 2 && u[0] == '0' && (u[1] == 'x' || u[1] == 'X');
    var radix := if hex then 16 else 10;
    var body := if hex then u[2..] else u;
    var n := DigitPrefix(body, radix);
    if n == 0 then None
    else
      assert IsDigitString(u) ==> !hex && n == |u| && body[..n] == u;
      Some(ValueIn(body[..n], radix))
  }

  /** JavaScript's `parseInt(s)` without a radix, `None` standing for NaN:
      leading white space is skipped and one sign is read before the
      magnitude. */
  function ParseInt(s: string): (r: Option<int>)
    ensures IsDigitString(s) ==> r == Some(Value(s))
  {
    var t := TrimStart(s);
    assert IsDigitString(s) ==> t == s;
    if |t| > 0 && t[0] == '-' then
      match ParseMagnitude(t[1..])
      case None => None
      case Some(m) => Some(-(m as int))
    else if |t| > 0 && t[0] == '+' then
      match ParseMagnitude(t[1..])
      case None => None
      case Some(m) => Some(m)
    else
      match ParseMagnitude(t)
      case None => None
      case Some(m) => Some(m)
  }

  /** JavaScript's `parseFloat(s)` on integer spellings, `None` standing
      for NaN: leading white space and one sign are read, then the longest
      run of decimal digits. Unlike `parseInt` there is no `0x` prefix, so
      `0x10` reads as 0. */
  function ParseFloat(s: string): (r: Option<int>)
    ensures IsDigitString(s) ==> r == Some(Value(s))
  {
    var t := TrimStart(s);
    assert IsDigitString(s) ==> t == s;
    var signed := |t| > 0 && (t[0] == '-' || t[0] == '+');
    var body := if signed then t[1..] else t;
    var n := DigitPrefix(body, 10);
    if n == 0 then None
    else
      assert IsDigitString(s) ==> !signed && n == |s| && body[..n] == s;
      var m: int := ValueIn(body[..n], 10);
      Some(if signed && t[0] == '-' then -m else m)
  }

  /** `parseFloat` reads back every integer the template literal writes. */
  lemma ParseFloatOfIntToString(i: int)
    ensures ParseFloat(IntToString(i)) == Some(i)
  {
    if i < 0 {
      var s := IntToString(i);
      assert s[0] == '-' && !IsSpace(s[0]);
      assert TrimStart(s) == s;
      assert s[1..] == Render(-i);
      ValueOfRender(-i);
      assert DigitPrefix(s[1..], 10) == |s[1..]|;
      assert s[1..][..|s[1..]|] == s[1..];
    } else {
      ValueOfRender(i);
    }
  }

  /** `parseInt` reads back every integer the template literal writes. */
  lemma ParseIntOfIntToString(i: int)
    ensures ParseInt(IntToString(i)) == Some(i)
  {
    if i < 0 {
      ParseIntOfNegative(-i);
    } else {
      ValueOfRender(i);
    }
  }

  lemma ParseIntOfNegative(n: nat)
    ensures ParseInt("-" + Render(n)) == Some(-(n as int))
  {
    var s := "-" + Render(n);
    assert s[0] == '-' && !IsSpace(s[0]);
    assert TrimStart(s) == s;
    assert s[1..] == Render(n);
    ValueOfRender(n);
    assert ParseMagnitude(s[1..]) == Some(n);
  }
}
