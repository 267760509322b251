/**
 * Decimal integers as the source writes and reads them: `str(n)` (what the
 * csv writer stores for an `int`), `int(s)` (the `invoice` converter and
 * the parse of an invoice line), and the `{n:05}` receipt label.
 */
module Decimal {
  import opened Wrappers
  import opened Text
  import opened SeqFacts

  predicate IsDigit(c: char) { '0' <= c <= '9' }

  predicate AllDigits(s: string) { forall i :: 0 <= i < |s| ==> IsDigit(s[i]) }

  function DigitChar(d: nat): (c: char)
    requires d < 10
    ensures IsDigit(c) && (c as int) - ('0' as int) == d
  {
    ['0', '1', '2', '3', '4', '5', '6', '7', '8', '9'][d]
  }

  /** The number a string of ASCII digits denotes (most significant first). */
  function DigitsValue(ds: string): nat
    requires AllDigits(ds)
  {
    if ds == [] then 0
    else 10 * DigitsValue(ds[..|ds| - 1]) + ((ds[|ds| - 1] as int) - ('0' as int))
  }

  /** `str(n)` for a non-negative `n`: no leading zeros. */
  function NatToString(n: nat): (s: string)
    ensures |s| > 0 && AllDigits(s)
    ensures |s| > 1 ==> s[0] != '0'
  {
    if n < 10 then [DigitChar(n)] else NatToString(n / 10) + [DigitChar(n % 10)]
  }

  /** `str(n)` */
  function IntToString(n: int): (s: string)
    ensures |s| > 0 && NoSpace(s)
  {
    if n < 0 then "-" + NatToString(-n) else NatToString(n)
  }

  /**
   * The zero of the block of ten decimal digits (Unicode category Nd) that
   * holds code point `n`, if any. Every such block runs from its zero to
   * its nine; the blocks are those of Unicode 15.0, the character database
   * of Python 3.12 and 3.13.
   */
  function DecimalZero(n: int): (z: Option<int>)
    ensures z.Some? ==> z.value <= n < z.value + 10
  {
    if 0x30 <= n < 0x3A then Some(0x30)
    else if 0x660 <= n < 0x66A then Some(0x660)
    else if 0x6F0 <= n < 0x6FA then Some(0x6F0)
    else if 0x7C0 <= n < 0x7CA then Some(0x7C0)
    else if 0x966 <= n < 0x970 then Some(0x966)
    else if 0x9E6 <= n < 0x9F0 then Some(0x9E6)
    else if 0xA66 <= n < 0xA70 then Some(0xA66)
    else if 0xAE6 <= n < 0xAF0 then Some(0xAE6)
    else if 0xB66 <= n < 0xB70 then Some(0xB66)
    else if 0xBE6 <= n < 0xBF0 then Some(0xBE6)
    else if 0xC66 <= n < 0xC70 then Some(0xC66)
    else if 0xCE6 <= n < 0xCF0 then Some(0xCE6)
    else if 0xD66 <= n < 0xD70 then Some(0xD66)
    else if 0xDE6 <= n < 0xDF0 then Some(0xDE6)
    else if 0xE50 <= n < 0xE5A then Some(0xE50)
    else if 0xED0 <= n < 0xEDA then Some(0xED0)
    else if 0xF20 <= n < 0xF2A then Some(0xF20)
    else if 0x1040 <= n < 0x104A then Some(0x1040)
    else if 0x1090 <= n < 0x109A then Some(0x1090)
    else if 0x17E0 <= n < 0x17EA then Some(0x17E0)
    else if 0x1810 <= n < 0x181A then Some(0x1810)
    else if 0x1946 <= n < 0x1950 then Some(0x1946)
    else if 0x19D0 <= n < 0x19DA then Some(0x19D0)
    else if 0x1A80 <= n < 0x1A8A then Some(0x1A80)
    else if 0x1A90 <= n < 0x1A9A then Some(0x1A90)
    else if 0x1B50 <= n < 0x1B5A then Some(0x1B50)
    else if 0x1BB0 <= n < 0x1BBA then Some(0x1BB0)
    else if 0x1C40 <= n < 0x1C4A then Some(0x1C40)
    else if 0x1C50 <= n < 0x1C5A then Some(0x1C50)
    else if 0xA620 <= n < 0xA62A then Some(0xA620)
    else if 0xA8D0 <= n < 0xA8DA then Some(0xA8D0)
    else if 0xA900 <= n < 0xA90A then Some(0xA900)
    else if 0xA9D0 <= n < 0xA9DA then Some(0xA9D0)
    else if 0xA9F0 <= n < 0xA9FA then Some(0xA9F0)
    else if 0xAA50 <= n < 0xAA5A then Some(0xAA50)
    else if 0xABF0 <= n < 0xABFA then Some(0xABF0)
    else if 0xFF10 <= n < 0xFF1A then Some(0xFF10)
    else if 0x104A0 <= n < 0x104AA then Some(0x104A0)
    else if 0x10D30 <= n < 0x10D3A then Some(0x10D30)
    else if 0x11066 <= n < 0x11070 then Some(0x11066)
    else if 0x110F0 <= n < 0x110FA then Some(0x110F0)
    else if 0x11136 <= n < 0x11140 then Some(0x11136)
    else if 0x111D0 <= n < 0x111DA then Some(0x111D0)
    else if 0x112F0 <= n < 0x112FA then Some(0x112F0)
    else if 0x11450 <= n < 0x1145A then Some(0x11450)
    else if 0x114D0 <= n < 0x114DA then Some(0x114D0)
    else if 0x11650 <= n < 0x1165A then Some(0x11650)
    else if 0x116C0 <= n < 0x116CA then Some(0x116C0)
    else if 0x11730 <= n < 0x1173A then Some(0x11730)
    else if 0x118E0 <= n < 0x118EA then Some(0x118E0)
    else if 0x11950 <= n < 0x1195A then Some(0x11950)
    else if 0x11C50 <= n < 0x11C5A then Some(0x11C50)
    else if 0x11D50 <= n < 0x11D5A then Some(0x11D50)
    else if 0x11DA0 <= n < 0x11DAA then Some(0x11DA0)
    else if 0x11F50 <= n < 0x11F5A then Some(0x11F50)
    else if 0x16A60 <= n < 0x16A6A then Some(0x16A60)
    else if 0x16AC0 <= n < 0x16ACA then Some(0x16AC0)
    else if 0x16B50 <= n < 0x16B5A then Some(0x16B50)
    else if 0x1D7CE <= n < 0x1D7D8 then Some(0x1D7CE)
    else if 0x1D7D8 <= n < 0x1D7E2 then Some(0x1D7D8)
    else if 0x1D7E2 <= n < 0x1D7EC then Some(0x1D7E2)
    else if 0x1D7EC <= n < 0x1D7F6 then Some(0x1D7EC)
    else if 0x1D7F6 <= n < 0x1D800 then Some(0x1D7F6)
    else if 0x1E140 <= n < 0x1E14A then Some(0x1E140)
    else if 0x1E2F0 <= n < 0x1E2FA then Some(0x1E2F0)
    else if 0x1E4F0 <= n < 0x1E4FA then Some(0x1E4F0)
    else if 0x1E950 <= n < 0x1E95A then Some(0x1E950)
    else if 0x1FBF0 <= n < 0x1FBFA then Some(0x1FBF0)
    else None
  }

  /**
   * `int()` first rewrites every decimal digit as the ASCII digit of the
   * same value. ASCII holds no decimal digits but '0' to '9', which stay
   * as they are, so only other characters are looked up.
   */
  function AsciiOf(c: char): (r: char)
    ensures (c as int) < 0x80 ==> r == c
  {
    if (c as int) < 0x80 then c
    else match DecimalZero(c as int)
      case None => c
      case Some(z) => DigitChar((c as int) - z)
  }

  /** A decimal digit outside ASCII becomes the ASCII digit of its value; any other character stays. */
  lemma AsciiOfDecimal(c: char)
    requires (c as int) >= 0x80
    ensures DecimalZero(c as int).None? ==> AsciiOf(c) == c
    ensures DecimalZero(c as int).Some? ==>
      IsDigit(AsciiOf(c)) && (AsciiOf(c) as int) - ('0' as int) == (c as int) - DecimalZero(c as int).value
  {
  }

  function ToAscii(b: string): (r: string)
    ensures |r| == |b|
    ensures forall i :: 0 <= i < |b| ==> r[i] == AsciiOf(b[i])
  {
    if b == [] then [] else [AsciiOf(b[0])] + ToAscii(b[1..])
  }

  /** ASCII comes through the rewriting unchanged. */
  lemma ToAsciiOfAscii(b: string)
    requires forall i :: 0 <= i < |b| ==> (b[i] as int) < 0x80
    ensures ToAscii(b) == b
  {
  }

  /**
   * The digit part `int()` accepts once decimal digits are rewritten:
   * ASCII digits, with single underscores allowed between two digits.
   */
  predicate DigitGroups(b: string)
  {
    && |b| > 0 && IsDigit(b[0]) && IsDigit(b[|b| - 1])
    && (forall i :: 0 <= i < |b| ==> IsDigit(b[i]) || b[i] == '_')
    && (forall i, j :: 0 <= i < |b| && 0 <= j < |b| && j == i + 1 && b[i] == '_' ==> b[j] != '_')
  }

  function DropUnderscores(b: string): (r: string)
    requires forall i :: 0 <= i < |b| ==> IsDigit(b[i]) || b[i] == '_'
    ensures AllDigits(r) && |r| <= |b|
  {
    if b == [] then [] else (if b[0] == '_' then [] else [b[0]]) + DropUnderscores(b[1..])
  }

  /**
   * The whitespace `int()` skips around a number: the ASCII whitespace of C
   * (tab to carriage return, and space) and every non-ASCII character
   * `str.isspace` accepts. The ASCII separators U+001C to U+001F, which
   * `str.isspace` also accepts, are not skipped.
   */
  predicate IntSpace(c: char)
  {
    var n := c as int;
    (0x09 <= n <= 0x0D) || n == 0x20 || (n >= 0x80 && IsSpace(c))
  }

  /** The leading whitespace `int()` skips. */
  function IntStripLeft(s: string): (r: string)
    ensures |r| <= |s| && (r == [] || !IntSpace(r[0]))
  {
    if s != [] && IntSpace(s[0]) then IntStripLeft(s[1..]) else s
  }

  /** The trailing whitespace `int()` skips. */
  function IntStripRight(s: string): (r: string)
    ensures |r| <= |s| && (r == [] || !IntSpace(r[|r| - 1]))
  {
    if s != [] && IntSpace(s[|s| - 1]) then IntStripRight(s[..|s| - 1]) else s
  }

  /** `int()`'s strip: like `str.strip()`, but over `IntSpace`. */
  function IntStrip(s: string): string
  {
    IntStripRight(IntStripLeft(s))
  }

  lemma IntStripOfNoSpace(s: string)
    requires NoSpace(s)
    ensures IntStrip(s) == s
  {
  }

  /**
   * `int(s)` in base 10: surrounding whitespace, an optional sign, then
   * digit groups in any script's decimal digits; `None` for `ValueError`.
   */
  function ParseInt(s: string): Option<int>
  {
    var t := IntStrip(s);
    if |t| > 0 && (t[0] == '-' || t[0] == '+') then ParseBody(t[0] == '-', t[1..])
    else ParseBody(false, t)
  }

  function ParseBody(neg: bool, body: string): Option<int>
  {
    var a := ToAscii(body);
    if DigitGroups(a) then Some(Signed(neg, DigitsValue(DropUnderscores(a)))) else None
  }

  function Signed(neg: bool, v: nat): int
  {
    var r: int := v;
    if neg then -r else r
  }

  lemma {:induction false} NatToStringValue(n: nat)
    ensures DigitsValue(NatToString(n)) == n
  {
    var s := NatToString(n);
    if n >= 10 {
      NatToStringValue(n / 10);
      assert s[..|s| - 1] == NatToString(n / 10);
    }
  }

  lemma {:induction false} DropUnderscoresOfDigits(b: string)
    requires AllDigits(b)
    ensures DropUnderscores(b) == b
  {
    if b != [] {
      DropUnderscoresOfDigits(b[1..]);
    }
  }

  lemma DigitsAreGroups(ds: string)
    requires |ds| > 0 && AllDigits(ds)
    ensures DigitGroups(ds)
  {
  }

  /** `int()` of a string that is already stripped: sign, then digit groups. */
  lemma ParseStripped(s: string, neg: bool, body: string)
    requires IntStrip(s) == s
    requires s == (if neg then "-" else "") + body
    requires DigitGroups(body)
    ensures ParseInt(s) == Some(Signed(neg, DigitsValue(DropUnderscores(body))))
  {
    var t := IntStrip(s);
    assert forall i :: 0 <= i < |body| ==> (body[i] as int) < 0x80;
    ToAsciiOfAscii(body);
    if neg {
      ConsParts('-', body);
      assert t[0] == '-' && t[1..] == body;
    } else {
      assert t == body && IsDigit(t[0]);
    }
  }

  /**
   * Digits of other scripts count as their values: an invoice line in
   * fullwidth digits, "１２", is read as 12.
   */
  lemma FullwidthDigits()
    ensures ParseInt("\U{FF11}\U{FF12}") == Some(12)
  {
    var s := "\U{FF11}\U{FF12}";
    assert NoSpace(s);
    IntStripOfNoSpace(s);
    assert s[0] != '-' && s[0] != '+';
    assert ToAscii(s) == "12";
    assert DigitGroups("12");
    assert DropUnderscores("12") == "12";
    assert "12"[..1] == "1" && "1"[..0] == "";
    assert DigitsValue("12") == 12;
  }

  /**
   * `int()` skips the ideographic space U+3000 around a number, but an
   * information separator such as U+001C is not whitespace to it.
   */
  lemma IntWhitespace()
    ensures ParseInt("5\U{3000}") == Some(5)
    ensures ParseInt("5\U{1C}") == None
    ensures ParseInt("\U{1F}5") == None
  {
    var a, b, c := "5\U{3000}", "5\U{1C}", "\U{1F}5";
    assert IntStripRight(a[..1]) == "5";
    assert IntStripLeft(a) == a && IntStrip(a) == "5";
    assert IntStrip(b) == b && !IsDigit(ToAscii(b)[1]);
    assert IntStrip(c) == c && !IsDigit(ToAscii(c)[0]);
    assert DigitGroups("5") && DropUnderscores("5") == "5";
    assert "5"[..0] == "";
  }

  /** `int()` of an optional minus sign followed by ASCII digits. */
  lemma ParseSignedDigits(neg: bool, ds: string)
    requires |ds| > 0 && AllDigits(ds)
    ensures ParseInt((if neg then "-" else "") + ds) == Some(Signed(neg, DigitsValue(ds)))
  {
    var s := (if neg then "-" else "") + ds;
    assert NoSpace(s) by {
      forall i | 0 <= i < |s| ensures !IsSpace(s[i]) {
        assert s[i] == '-' || IsDigit(s[i]);
      }
    }
    IntStripOfNoSpace(s);
    DigitsAreGroups(ds);
    DropUnderscoresOfDigits(ds);
    ParseStripped(s, neg, ds);
  }

  /** `int(str(n)) == n`: the `int` converter reads back what the csv writer stored. */
  lemma ParseIntOfString(n: int)
    ensures ParseInt(IntToString(n)) == Some(n)
  {
    var m: nat := if n < 0 then -n else n;
    NatToStringValue(m);
    ParseSignedDigits(n < 0, NatToString(m));
    assert IntToString(n) == (if n < 0 then "-" else "") + NatToString(m);
    assert Signed(n < 0, m) == n;
  }

  function Zeros(k: nat): (z: string)
    ensures |z| == k && AllDigits(z)
    ensures forall i :: 0 <= i < k ==> z[i] == '0'
  {
    if k == 0 then "" else "0" + Zeros(k - 1)
  }

  /**
   * `format(n, "05")`: the sign, then the digits of `|n|` padded with zeros
   * on the left so that sign and digits fill at least five characters.
   */
  function Padded5(n: int): string
  {
    var sign := if n < 0 then "-" else "";
    var ds := NatToString(if n < 0 then -n else n);
    sign + Zeros(if |sign| + |ds| < 5 then 5 - |sign| - |ds| else 0) + ds
  }

  lemma {:induction false} LeadingZeroValue(ds: string)
    requires AllDigits(ds)
    ensures DigitsValue("0" + ds) == DigitsValue(ds)
  {
    if ds != [] {
      assert ("0" + ds)[..|"0" + ds| - 1] == "0" + ds[..|ds| - 1];
      LeadingZeroValue(ds[..|ds| - 1]);
    }
  }

  lemma {:induction false} ZerosValue(k: nat, ds: string)
    requires AllDigits(ds)
    ensures AllDigits(Zeros(k) + ds) && DigitsValue(Zeros(k) + ds) == DigitsValue(ds)
  {
    if k == 0 {
      assert Zeros(k) + ds == ds;
    } else {
      ZerosValue(k - 1, ds);
      assert Zeros(k) + ds == "0" + (Zeros(k - 1) + ds);
      LeadingZeroValue(Zeros(k - 1) + ds);
    }
  }

  /** Sign, zero padding and digits of `Padded5(n)` taken apart. */
  lemma Padded5Parts(n: int) returns (body: string)
    ensures Padded5(n) == (if n < 0 then "-" else "") + body
    ensures |body| > 0 && AllDigits(body)
    ensures DigitsValue(body) == if n < 0 then -n else n
    ensures |Padded5(n)| == if |IntToString(n)| < 5 then 5 else |IntToString(n)|
  {
    var m: nat := if n < 0 then -n else n;
    var ds := NatToString(m);
    var k := if (if n < 0 then 1 else 0) + |ds| < 5 then 5 - (if n < 0 then 1 else 0) - |ds| else 0;
    body := Zeros(k) + ds;
    ZerosValue(k, ds);
    NatToStringValue(m);
  }

  /**
   * A receipt label is at least five characters long, only digits for a
   * non-negative number, and `int()` of it is the number again.
   */
  lemma Padded5Properties(n: int)
    ensures |Padded5(n)| >= 5
    ensures |Padded5(n)| == if |IntToString(n)| < 5 then 5 else |IntToString(n)|
    ensures n >= 0 ==> AllDigits(Padded5(n))
    ensures ParseInt(Padded5(n)) == Some(n)
  {
    var body := Padded5Parts(n);
    ParseSignedDigits(n < 0, body);
    assert Signed(n < 0, DigitsValue(body)) == n;
  }
}
