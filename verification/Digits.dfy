/** Numerals in base 10 and 16, as strconv and math/big print and read them. */
module Digits {
  import opened Prelude

  type Base = b: nat | b == 10 || b == 16 witness 10

  function DigitChar(d: nat): char
    requires d < 16
  {
    if d < 10 then (d + '0' as int) as char else (d - 10 + 'a' as int) as char
  }

  function DigitValue(c: char): Option<nat> {
    if '0' <= c <= '9' then Some(c as int - '0' as int)
    else if 'a' <= c <= 'f' then Some(c as int - 'a' as int + 10)
    else if 'A' <= c <= 'F' then Some(c as int - 'A' as int + 10)
    else None
  }

  function PrintNat(n: nat, base: Base): (s: string)
    ensures s != "" && forall c :: c in s ==> '0' <= c <= '9' || 'a' <= c <= 'f'
  {
    if n < base then [DigitChar(n)] else PrintNat(n / base, base) + [DigitChar(n % base)]
  }

  /** The unsigned numeral s, or None when some character is not a digit of the base. */
  function ParseNat(s: string, base: Base): Option<nat> {
    if s == "" then None
    else
      match DigitValue(s[|s| - 1])
      case None => None
      case Some(d) =>
        if d >= base then None
        else if |s| == 1 then Some(d)
        else match ParseNat(s[..|s| - 1], base)
             case None => None
             case Some(hi) => Some(hi * base + d)
  }

  lemma {:induction false} ParsePrintNat(n: nat, base: Base)
    ensures ParseNat(PrintNat(n, base), base) == Some(n)
  {
    hide DigitChar, DigitValue;
    if n < base {
      DigitRoundTrip(n);
    } else {
      var hi, d := n / base, n % base;
      Quotient(n, base);
      DigitRoundTrip(d);
      ParsePrintNat(hi, base);
      var s := PrintNat(n, base);
      assert s[..|s| - 1] == PrintNat(hi, base) && s[|s| - 1] == DigitChar(d);
    }
  }

  lemma DigitRoundTrip(d: nat)
    requires d < 16
    ensures DigitValue(DigitChar(d)) == Some(d)
  {
  }

  lemma Quotient(n: nat, base: Base)
    ensures n == n / base * base + n % base && n % base < base
  {
    if base == 10 { } else { }
  }

  function Power(b: nat, e: nat): nat { if e == 0 then 1 else b * Power(b, e - 1) }

  lemma {:induction false} PowerPositive(b: nat, e: nat)
    requires b > 0
    ensures Power(b, e) > 0
  {
    if e > 0 { PowerPositive(b, e - 1); }
  }

  /** Digit i of a numeral is the digit of its place value. */
  lemma {:induction false} NumeralDigits(n: nat, base: Base, i: nat)
    requires i < |PrintNat(n, base)|
    ensures var k := |PrintNat(n, base)| - 1 - i;
      Power(base, k) > 0 && PrintNat(n, base)[i] == "0123456789abcdef"[n / Power(base, k) % base]
  {
    hide DigitChar;
    var s := PrintNat(n, base);
    var k := |s| - 1 - i;
    PowerPositive(base, k);
    if k == 0 {
      DivOne(n);
      DigitText(n % base);
      if n < base { SmallMod(n, base); }
    } else {
      var hi := PrintNat(n / base, base);
      assert s == hi + [DigitChar(n % base)];
      NumeralDigits(n / base, base, i);
      PowerPositive(base, k - 1);
      DivDiv(n, base, Power(base, k - 1));
    }
  }

  lemma SmallMod(n: nat, m: nat)
    requires n < m
    ensures n % m == n
  {
  }

  lemma DivOne(n: nat)
    ensures n / 1 == n
  {
  }

  lemma DigitText(d: nat)
    requires d < 16
    ensures DigitChar(d) == "0123456789abcdef"[d]
  {
  }

  /** A numeral has no leading zero. */
  lemma {:induction false} NumeralHead(n: nat, base: Base)
    ensures PrintNat(n, base)[0] == '0' ==> n == 0 && PrintNat(n, base) == "0"
  {
    if n >= base { NumeralHead(n / base, base); }
  }

  lemma BelowProduct(a: nat, b: nat, r: nat, m: nat)
    requires r < b && m < a
    ensures a * b > 0 && a * r + m < a * b
  {
    MulAtLeast(a, b, r + 1);
    assert a * (r + 1) == a * r + a;
    assert a * r >= 0;
  }

  lemma Distribute(a: nat, b: nat, q: nat, r: nat)
    ensures a * (b * q + r) == a * b * q + a * r
  {
    assert a * (b * q) == a * b * q;
  }

  lemma ProductQuotient(x: nat, a: nat, b: nat, q: nat, r: nat, m: nat)
    requires r < b && m < a && x == a * (b * q + r) + m
    ensures a * b > 0 && x / (a * b) == q
  {
    BelowProduct(a, b, r, m);
    Distribute(a, b, q, r);
    var p, low := a * b, a * r + m;
    assert x == p * q + low;
    DivModUnique(x, p, q, low);
  }

  lemma QuotientParts(x: nat, a: nat)
    requires a > 0
    ensures x / a >= 0 && 0 <= x % a < a && x == a * (x / a) + x % a
  {
  }

  lemma DivDiv(x: nat, a: nat, b: nat)
    requires a > 0 && b > 0
    ensures a * b > 0 && x / (a * b) == x / a / b
  {
    QuotientParts(x, a);
    var y, m := x / a, x % a;
    QuotientParts(y, b);
    var q, r := y / b, y % b;
    ProductQuotient(x, a, b, q, r, m);
  }

  function Zeros(z: nat): string { seq(z, _ => '0') }

  lemma {:induction false} LeadingZeros(z: nat, s: string, base: Base)
    requires s != ""
    ensures ParseNat(Zeros(z) + s, base) == ParseNat(s, base)
    decreases |s|
  {
    hide DigitValue;
    var t := Zeros(z) + s;
    assert t[|t| - 1] == s[|s| - 1];
    if |s| > 1 {
      LeadingZeros(z, s[..|s| - 1], base);
      assert t[..|t| - 1] == Zeros(z) + s[..|s| - 1];
    } else if z > 0 {
      assert t[..|t| - 1] == Zeros(z);
      ZeroNumeral(z, base);
    } else {
      assert t == s;
    }
  }

  lemma {:induction false} ZeroNumeral(z: nat, base: Base)
    requires z > 0
    ensures ParseNat(Zeros(z), base) == Some(0)
  {
    if z > 1 {
      ZeroNumeral(z - 1, base);
      assert Zeros(z)[..z - 1] == Zeros(z - 1);
    }
  }

  lemma {:induction false} NumeralCase(s: string, base: Base)
    ensures ParseNat(ToLower(s), base) == ParseNat(s, base)
  {
    if s != "" {
      NumeralCase(s[..|s| - 1], base);
      assert ToLower(s)[..|s| - 1] == ToLower(s[..|s| - 1]);
    }
  }

  /** A numeral of n: its printed form behind any number of zeros, in either case. */
  ghost predicate IsNumeral(s: string, base: Base, n: nat) { exists z: nat :: ToLower(s) == Zeros(z) + PrintNat(n, base) }

  lemma {:induction false} NumeralSpellings(s: string, base: Base, n: nat)
    ensures ParseNat(s, base) == Some(n) <==> IsNumeral(s, base, n)
  {
    if ParseNat(s, base) == Some(n) { var z := NumeralShape(s, base, n); }
    if IsNumeral(s, base, n) {
      var z: nat :| ToLower(s) == Zeros(z) + PrintNat(n, base);
      NumeralCase(s, base);
      LeadingZeros(z, PrintNat(n, base), base);
      ParsePrintNat(n, base);
    }
  }

  lemma {:induction false} NumeralShape(s: string, base: Base, n: nat) returns (z: nat)
    requires ParseNat(s, base) == Some(n)
    ensures ToLower(s) == Zeros(z) + PrintNat(n, base)
  {
    hide DigitValue, DigitChar, LowerChar;
    var last := |s| - 1;
    var d := DigitValue(s[last]).value;
    LoweredDigit(s[last]);
    if last == 0 {
      z := 0;
      assert ToLower(s) == Zeros(0) + [DigitChar(d)];
    } else {
      var hi := ParseNat(s[..last], base).value;
      z := NumeralShape(s[..last], base, hi);
      assert ToLower(s) == ToLower(s[..last]) + [DigitChar(d)];
      if hi == 0 {
        assert Zeros(z + 1) == Zeros(z) + "0" by { assert DigitChar(0) == '0' by { DigitText(0); } }
        assert PrintNat(0, base) == "0" by { DigitText(0); }
        z := z + 1;
      } else {
        DivModUnique(n, base, hi, d);
        assert PrintNat(n, base) == PrintNat(hi, base) + [DigitChar(d)];
      }
    }
  }

  lemma LoweredDigit(c: char)
    ensures DigitValue(c).Some? ==> DigitValue(c).value < 16 && LowerChar(c) == DigitChar(DigitValue(c).value)
  {
  }

  /** A base-10 numeral uses decimal digits only. */
  lemma {:induction false} DecimalDigits(n: nat)
    ensures forall c :: c in PrintNat(n, 10) ==> '0' <= c <= '9'
  {
    if n >= 10 { DecimalDigits(n / 10); }
  }

  /** big.Int.String and strconv.FormatInt. */
  function PrintInt(n: int): string {
    if n < 0 then "-" + PrintNat(-n, 10) else PrintNat(n, 10)
  }

  /** big.Int.SetString: an optional sign, then digits of the base. */
  function ParseInt(s: string, base: Base): Option<int> {
    if s != "" && (s[0] == '-' || s[0] == '+') then
      match ParseNat(s[1..], base)
      case None => None
      case Some(n) => var v: int := n; Some(if s[0] == '-' then -v else v)
    else
      match ParseNat(s, base)
      case None => None
      case Some(n) => Some(n)
  }

  lemma {:induction false} SignIsNoDigit(s: string, base: Base)
    requires s != "" && (s[0] == '-' || s[0] == '+')
    ensures ParseNat(s, base) == None
  {
    if |s| > 1 { SignIsNoDigit(s[..|s| - 1], base); }
  }

  /** A numeral of an integer: signed, or unsigned where it is not negative. */
  ghost predicate IsSigned(s: string, base: Base, n: int) {
    || (n >= 0 && (IsNumeral(s, base, n) || (s != "" && s[0] == '+' && IsNumeral(s[1..], base, n))))
    || (n <= 0 && s != "" && s[0] == '-' && IsNumeral(s[1..], base, -n))
  }

  lemma IntSpellings(s: string, base: Base, n: int)
    ensures ParseInt(s, base) == Some(n) <==> IsSigned(s, base, n)
  {
    hide IsNumeral, ParseNat;
    var size := if n < 0 then -n else n;
    NumeralSpellings(s, base, size);
    if s != "" {
      NumeralSpellings(s[1..], base, size);
      if s[0] == '-' || s[0] == '+' { SignIsNoDigit(s, base); }
    }
  }

  lemma ParsePrintInt(n: int)
    ensures ParseInt(PrintInt(n), 10) == Some(n)
    ensures forall c :: c in PrintInt(n) ==> c == '-' || '0' <= c <= '9'
    ensures PrintInt(n) != ""
  {
    hide PrintNat, ParseNat;
    if n < 0 {
      ParsePrintNat(-n, 10);
      DecimalDigits(-n);
      assert PrintInt(n)[1..] == PrintNat(-n, 10);
    } else {
      ParsePrintNat(n, 10);
      DecimalDigits(n);
      assert PrintInt(n)[0] in PrintInt(n);
    }
  }

  lemma PrintIntInjective(m: int, n: int)
    requires PrintInt(m) == PrintInt(n)
    ensures m == n
  {
    ParsePrintInt(m);
    ParsePrintInt(n);
  }

  // ---- bytes as hex -------------------------------------------------------

  /** hex.EncodeToString. */
  function HexEncode(bytes: seq<Byte>): (s: string)
    ensures |s| == 2 * |bytes|
    ensures forall c :: c in s ==> '0' <= c <= '9' || 'a' <= c <= 'f'
  {
    if bytes == [] then "" else [DigitChar(bytes[0] / 16), DigitChar(bytes[0] % 16)] + HexEncode(bytes[1..])
  }

  /** Bytes as one number, most significant first. */
  function BigEndian(bytes: seq<Byte>): nat {
    if bytes == [] then 0 else BigEndian(bytes[..|bytes| - 1]) * 256 + bytes[|bytes| - 1]
  }

  /** Hex digit i of some bytes, read off their number. */
  function HexDigitAt(bytes: seq<Byte>, i: nat): nat
    requires i < 2 * |bytes|
  {
    PowerPositive(16, 2 * |bytes| - 1 - i);
    BigEndian(bytes) / Power(16, 2 * |bytes| - 1 - i) % 16
  }

  lemma BigEndianLast(bytes: seq<Byte>)
    requires bytes != []
    ensures BigEndian(bytes) == BigEndian(bytes[..|bytes| - 1]) * 256 + bytes[|bytes| - 1]
  {
  }

  /** It is a half of a byte: the high one at even places. */
  lemma {:induction false} HexDigitHalves(bytes: seq<Byte>, i: nat)
    requires i < 2 * |bytes|
    ensures HexDigitAt(bytes, i) == if i % 2 == 0 then bytes[i / 2] / 16 else bytes[i / 2] % 16
  {
    hide BigEndian;
    var e, last := 2 * |bytes| - 1 - i, |bytes| - 1;
    var n, hi := BigEndian(bytes), BigEndian(bytes[..last]);
    BigEndianLast(bytes);
    if e >= 2 {
      PowerPositive(16, e - 2);
      TwoPlaces(n, hi, bytes[last], e);
      HexDigitHalves(bytes[..last], i);
    } else {
      LastByte(hi, bytes[last]);
    }
  }

  lemma TwoPlaces(n: nat, hi: nat, b: Byte, e: nat)
    requires e >= 2 && n == hi * 256 + b && Power(16, e - 2) > 0
    ensures Power(16, e) > 0 && n / Power(16, e) == hi / Power(16, e - 2)
  {
    assert Power(16, e) == 256 * Power(16, e - 2) by { assert Power(16, e) == 16 * Power(16, e - 1); }
    DivModUnique(n, 256, hi, b);
    DivDiv(n, 256, Power(16, e - 2));
  }

  lemma LastByte(hi: nat, b: Byte)
    ensures Power(16, 0) == 1 && Power(16, 1) == 16
    ensures (hi * 256 + b) / 1 % 16 == b % 16 && (hi * 256 + b) / 16 % 16 == b / 16
  {
    DivModUnique(hi * 256 + b, 16, hi * 16 + b / 16, b % 16);
    DivModUnique(hi * 16 + b / 16, 16, hi, b / 16);
  }

  /** hex.EncodeToString writes the digits of the number the bytes are. */
  lemma {:induction false} HexEncodeDigits(bytes: seq<Byte>, i: nat)
    requires i < 2 * |bytes|
    ensures HexEncode(bytes)[i] == "0123456789abcdef"[HexDigitAt(bytes, i)]
  {
    hide HexDigitAt, DigitChar;
    HexDigitHalves(bytes, i);
    DigitText(bytes[i / 2] / 16);
    DigitText(bytes[i / 2] % 16);
    if i >= 2 {
      HexDigitHalves(bytes[1..], i - 2);
      HexEncodeDigits(bytes[1..], i - 2);
      assert bytes[1..][(i - 2) / 2] == bytes[i / 2];
    }
  }

  /** hex.DecodeString, on strings of even length. */
  function HexDecode(s: string): Option<seq<Byte>> {
    if s == "" then Some([])
    else if |s| == 1 then None
    else
      match (DigitValue(s[0]), DigitValue(s[1]), HexDecode(s[2..]))
      case (Some(hi), Some(lo), Some(rest)) => Some([hi * 16 + lo] + rest)
      case _ => None
  }

  lemma {:induction false} DecodeEncode(bytes: seq<Byte>)
    ensures HexDecode(HexEncode(bytes)) == Some(bytes)
  {
    if bytes != [] {
      DecodeEncode(bytes[1..]);
      var s := HexEncode(bytes);
      assert s[2..] == HexEncode(bytes[1..]);
      assert DigitValue(s[0]) == Some(bytes[0] / 16) && DigitValue(s[1]) == Some(bytes[0] % 16);
      assert bytes == [bytes[0]] + bytes[1..];
    }
  }

  function LowerChar(c: char): char {
    if 'A' <= c <= 'Z' then (c as int + 32) as char else c
  }

  function UpperChar(c: char): char {
    if 'a' <= c <= 'z' then (c as int - 32) as char else c
  }

  function ToLower(s: string): (t: string)
    ensures |t| == |s|
  {
    seq(|s|, i requires 0 <= i < |s| => LowerChar(s[i]))
  }

  function ToUpper(s: string): (t: string)
    ensures |t| == |s|
  {
    seq(|s|, i requires 0 <= i < |s| => UpperChar(s[i]))
  }

  lemma LowerDigit(c: char)
    ensures var l := LowerChar(c); DigitValue(l).Some? ==> DigitValue(l).value < 16 && DigitChar(DigitValue(l).value) == l
  {
  }

  lemma BytePair(hi: nat, lo: nat)
    requires hi < 16 && lo < 16
    ensures (hi * 16 + lo) / 16 == hi && (hi * 16 + lo) % 16 == lo
  {
  }

  /** Decoding a lower-cased numeral accepts exactly the spellings of its bytes. */
  lemma {:induction false} EncodeDecode(s: string, bytes: seq<Byte>)
    requires HexDecode(ToLower(s)) == Some(bytes)
    ensures ToLower(s) == HexEncode(bytes)
  {
    hide DigitChar, DigitValue, LowerChar;
    if |s| >= 2 {
      var t := ToLower(s);
      assert t[2..] == ToLower(s[2..]);
      assert HexDecode(t[2..]).Some?;
      EncodeDecode(s[2..], bytes[1..]);
      var hi, lo := DigitValue(t[0]).value, DigitValue(t[1]).value;
      assert bytes == [hi * 16 + lo] + HexDecode(t[2..]).value;
      LowerDigit(s[0]);
      LowerDigit(s[1]);
      BytePair(hi, lo);
      assert t == [t[0], t[1]] + t[2..];
    } else {
      assert s == "";
    }
  }

  /** A range-checked 64-bit numeral: strconv.ParseUint(s, 16, 64). */
  function ParseUint64Hex(s: string): Option<Uint64> {
    match ParseNat(s, 16)
    case None => None
    case Some(n) => if n < TWO_64 then Some(n) else None
  }

  lemma ParsePrintUint64(n: Uint64)
    ensures ParseUint64Hex(PrintNat(n, 16)) == Some(n)
  {
    ParsePrintNat(n, 16);
  }
}
