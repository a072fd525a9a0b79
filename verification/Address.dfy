/** EVM addresses and their EIP-55 text form (internal/chain/address.go).

Keccak-256 is a parameter: every result holds whatever the digest function is. */
module Address {
  import opened Prelude
  import opened Digits

  type Address = a: seq<Byte> | |a| == 20 witness seq(20, i => 0)
  type Digest = d: seq<Byte> | |d| == 32 witness seq(32, i => 0)
  type Hasher = string -> Digest

  predicate LowerHexLetter(c: char) { 'a' <= c <= 'f' }

  predicate UpperHexLetter(c: char) { 'A' <= c <= 'F' }

  /** The hash nibble that decides the case of hex digit i, high nibble first. */
  function Nibble(d: Digest, i: nat): nat
    requires i < 40
  {
    if i % 2 == 0 then d[i / 2] / 16 else d[i / 2] % 16
  }

  /** The checksummed digit: a letter is upper case when its nibble is 8 or more. */
  function Checked(c: char, nibble: nat): char {
    if LowerHexLetter(c) && nibble >= 8 then UpperChar(c) else c
  }

  /** The 40 checksummed digits of an address. */
  function ChecksumDigits(hash: Hasher, a: Address): (s: string)
    ensures |s| == 40
  {
    var lower := HexEncode(a);
    seq(40, i requires 0 <= i < 40 => Checked(lower[i], Nibble(hash(lower), i)))
  }

  /** Address.Hex and Address.String. */
  function Hex(hash: Hasher, a: Address): string { "0x" + ChecksumDigits(hash, a) }

  /** eip55Hex: the loop that appends one digit at a time. */
  method Eip55Hex(hash: Hasher, a: Address) returns (out: string)
    ensures out == Hex(hash, a) && IsChecksummed(hash, a, out)
  {
    hide IsChecksummed;
    var lower := HexEncode(a);
    var digest := hash(lower);
    out := "0x";
    for i := 0 to |lower|
      invariant |out| == i + 2
      invariant out == "0x" + ChecksumDigits(hash, a)[..i]
    {
      var c := lower[i];
      if 'a' <= c <= 'f' {
        var nibble: nat;
        if i % 2 == 0 { nibble := digest[i / 2] / 16; } else { nibble := digest[i / 2] % 16; }
        if nibble >= 8 { c := (c as int - 'a' as int + 'A' as int) as char; }
      }
      out := out + [c];
    }
    HexIsChecksummed(hash, a);
  }

  /** Bit j of a digest read as a 256-bit number, counted from the most significant. */
  function DigestBit(d: Digest, j: nat): nat
    requires j < 256
  {
    PowerPositive(2, 255 - j);
    BigEndian(d) / Power(2, 255 - j) % 2
  }

  /** EIP-55, section "Specification": digit i of the address as a number, where a letter is
      upper case exactly when bit 4 i of the digest of the lower-case digits is set. */
  ghost predicate ChecksumRule(hash: Hasher, a: Address, s: string, i: nat)
    requires |s| == 42 && i < 40
  {
    var v := HexDigitAt(a, i);
    s[i + 2] == (if v >= 10 && DigestBit(hash(HexEncode(a)), 4 * i) == 1 then "0123456789ABCDEF" else "0123456789abcdef")[v]
  }

  ghost predicate IsChecksummed(hash: Hasher, a: Address, s: string) {
    |s| == 42 && s[0] == '0' && s[1] == 'x' && forall i :: 0 <= i < 40 ==> ChecksumRule(hash, a, s, i)
  }

  lemma {:induction false} PowerOfTwo(m: nat)
    ensures Power(2, 4 * m + 3) == 8 * Power(16, m)
  {
    if m == 0 {
      assert Power(2, 1) == 2 && Power(2, 2) == 4;
    } else {
      PowerOfTwo(m - 1);
      assert Power(2, 4 * m + 1) == 4 * Power(2, 4 * m - 1);
    }
  }

  lemma TopBit(x: nat)
    ensures x / 8 % 2 == 1 <==> x % 16 >= 8
  {
  }

  /** The nibble is 8 or more exactly when its first bit is set. */
  lemma NibbleBit(d: Digest, i: nat)
    requires i < 40
    ensures Nibble(d, i) >= 8 <==> DigestBit(d, 4 * i) == 1
  {
    var m := 63 - i;
    HexDigitHalves(d, i);
    PowerOfTwo(m);
    PowerPositive(16, m);
    assert 255 - 4 * i == 4 * m + 3;
    DivDiv(BigEndian(d), Power(16, m), 8);
    TopBit(BigEndian(d) / Power(16, m));
  }

  lemma LetterCase(v: nat)
    requires v < 16
    ensures var c := "0123456789abcdef"[v];
      (LowerHexLetter(c) <==> v >= 10) && (v >= 10 ==> UpperChar(c) == "0123456789ABCDEF"[v])
  {
  }

  /** The printed address follows the standard. */
  lemma HexIsChecksummed(hash: Hasher, a: Address)
    ensures IsChecksummed(hash, a, Hex(hash, a))
  {
    hide HexEncode, Nibble, HexDigitAt, DigestBit, UpperChar;
    forall i | 0 <= i < 40 ensures ChecksumRule(hash, a, Hex(hash, a), i) {
      HexEncodeDigits(a, i);
      NibbleBit(hash(HexEncode(a)), i);
      DigitBelow(a, i);
      LetterCase(HexDigitAt(a, i));
      assert Hex(hash, a)[i + 2] == ChecksumDigits(hash, a)[i];
    }
  }

  lemma DigitBelow(bytes: seq<Byte>, i: nat)
    requires i < 2 * |bytes|
    ensures 0 <= HexDigitAt(bytes, i) < 16
  {
  }

  /** Only one string does. */
  lemma ChecksummedIsHex(hash: Hasher, a: Address, s: string)
    requires IsChecksummed(hash, a, s)
    ensures s == Hex(hash, a)
  {
    hide Hex, HexDigitAt, DigestBit;
    HexIsChecksummed(hash, a);
    var t := Hex(hash, a);
    forall k | 0 <= k < 42 ensures s[k] == t[k] {
      if k >= 2 { assert ChecksumRule(hash, a, s, k - 2) && ChecksumRule(hash, a, t, k - 2); }
    }
  }

  predicate MixedCase(s: string) {
    && (exists c :: c in s && LowerHexLetter(c))
    && (exists c :: c in s && UpperHexLetter(c))
  }

  /** hasMixedCase. */
  method HasMixedCase(s: string) returns (mixed: bool)
    ensures mixed <==> MixedCase(s)
  {
    var hasLower, hasUpper := false, false;
    for i := 0 to |s|
      invariant hasLower <==> exists c :: c in s[..i] && LowerHexLetter(c)
      invariant hasUpper <==> exists c :: c in s[..i] && UpperHexLetter(c)
    {
      assert s[..i + 1] == s[..i] + [s[i]];
      assert s[i] in s[..i + 1];
      if 'a' <= s[i] <= 'f' { hasLower := true; }
      if 'A' <= s[i] <= 'F' { hasUpper := true; }
    }
    assert s[..|s|] == s;
    return hasLower && hasUpper;
  }

  predicate HasHexPrefix(s: string) { |s| >= 2 && s[0] == '0' && (s[1] == 'x' || s[1] == 'X') }

  /** The value NewAddress gives to s. */
  function Parse(hash: Hasher, s: string): Result<Address> {
    if !HasHexPrefix(s) then Err("address: missing 0x/0X prefix")
    else if |s| != 42 then Err("address: expected 40 hex chars after prefix")
    else
      match HexDecode(ToLower(s[2..]))
      case None => Err("address: invalid hex")
      case Some(bytes) =>
        if |bytes| != 20 then Err("address: invalid hex")
        else if MixedCase(s[2..]) && "0x" + s[2..] != Hex(hash, bytes) then Err("address: EIP-55 checksum mismatch")
        else var a: Address := bytes; Ok(a)
  }

  method NewAddress(hash: Hasher, s: string) returns (r: Result<Address>)
    ensures r == Parse(hash, s) && forall a :: r == Ok(a) <==> ReadsAs(hash, s, a)
  {
    forall a ensures Parse(hash, s) == Ok(a) <==> ReadsAs(hash, s, a) { ParsesExactly(hash, s, a); }
    if !HasHexPrefix(s) { return Err("address: missing 0x/0X prefix"); }
    var hexPart := s[2..];
    if |hexPart| != 40 { return Err("address: expected 40 hex chars after prefix"); }
    var decoded := HexDecode(ToLower(hexPart));
    if decoded.None? || |decoded.value| != 20 { return Err("address: invalid hex"); }
    var mixed := HasMixedCase(hexPart);
    if mixed {
      var canonical := Eip55Hex(hash, decoded.value);
      if "0x" + hexPart != canonical { return Err("address: EIP-55 checksum mismatch"); }
    }
    return Ok(decoded.value);
  }

  lemma LowerOfChecksum(hash: Hasher, a: Address)
    ensures ToLower(ChecksumDigits(hash, a)) == HexEncode(a)
  {
    var lower := HexEncode(a);
    forall i | 0 <= i < 40 ensures ToLower(ChecksumDigits(hash, a))[i] == lower[i] {
      assert lower[i] in lower;
    }
  }

  /** Printing an address and reading it back returns the address. */
  lemma ParsePrinted(hash: Hasher, a: Address)
    ensures Parse(hash, Hex(hash, a)) == Ok(a)
  {
    LowerOfChecksum(hash, a);
    DecodeEncode(a);
    assert Hex(hash, a)[2..] == ChecksumDigits(hash, a);
  }

  lemma HexInjective(hash: Hasher, a: Address, b: Address)
    requires Hex(hash, a) == Hex(hash, b)
    ensures a == b
  {
    ParsePrinted(hash, a);
    ParsePrinted(hash, b);
  }

  /** A spelling of lower-case digits with no upper-case letter is those digits. */
  lemma UnmixedSpelling(s: string, lower: string)
    requires ToLower(s) == lower
    requires forall c :: c in lower ==> '0' <= c <= '9' || 'a' <= c <= 'f'
    requires !MixedCase(s)
    ensures s == lower || s == ToUpper(lower)
  {
    forall i | 0 <= i < |s| ensures s[i] == lower[i] || s[i] == UpperChar(lower[i]) {
      assert lower[i] in lower && ToLower(s)[i] == lower[i];
    }
    if exists i :: 0 <= i < |s| && s[i] != lower[i] {
      var i :| 0 <= i < |s| && s[i] != lower[i];
      assert s[i] in s && UpperHexLetter(s[i]) by { assert lower[i] in lower && ToLower(s)[i] == lower[i]; }
      forall j | 0 <= j < |s| ensures s[j] == ToUpper(lower)[j] {
        assert s[j] in s && lower[j] in lower && ToLower(s)[j] == lower[j];
      }
    }
  }

  /** An accepted string is a lower-case, an upper-case or the checksummed spelling. */
  predicate Spelling(hash: Hasher, a: Address, s: string) {
    && HasHexPrefix(s)
    && (s[2..] == HexEncode(a) || s[2..] == ToUpper(HexEncode(a)) || s[2..] == ChecksumDigits(hash, a))
  }

  lemma SpellingLowers(hash: Hasher, a: Address, s: string)
    requires Spelling(hash, a, s)
    ensures |s| == 42 && ToLower(s[2..]) == HexEncode(a)
    ensures !MixedCase(s[2..]) || s[2..] == ChecksumDigits(hash, a)
  {
    var lower := HexEncode(a);
    LowerOfChecksum(hash, a);
    forall i | 0 <= i < 40 ensures ToLower(lower)[i] == lower[i] && ToLower(ToUpper(lower))[i] == lower[i]
    {
      assert lower[i] in lower;
    }
    assert ToLower(lower) == lower && ToLower(ToUpper(lower)) == lower;
    if s[2..] == lower {
      assert !MixedCase(s[2..]);
    } else if s[2..] == ToUpper(lower) {
      forall c | c in s[2..] ensures !LowerHexLetter(c) {
        var i :| 0 <= i < 40 && s[2..][i] == c;
        assert lower[i] in lower;
      }
    }
  }

  /** The parser accepts exactly the three spellings of its result (EIP-55, section
      "Specification"), under either spelling of the prefix. */
  lemma AcceptsExactlySpellings(hash: Hasher, s: string, a: Address)
    ensures Parse(hash, s) == Ok(a) <==> Spelling(hash, a, s)
  {
    if Parse(hash, s) == Ok(a) {
      EncodeDecode(s[2..], a);
      if !MixedCase(s[2..]) {
        UnmixedSpelling(s[2..], HexEncode(a));
      } else {
        assert ("0x" + s[2..])[2..] == Hex(hash, a)[2..];
        assert Hex(hash, a)[2..] == ChecksumDigits(hash, a) && ("0x" + s[2..])[2..] == s[2..];
      }
    }
    if Spelling(hash, a, s) {
      SpellingLowers(hash, a, s);
      DecodeEncode(a);
    }
  }

  /** What NewAddress reads: a prefix and 40 digits of the address as a number, either in one
      case or in the case the standard gives them. */
  ghost predicate ReadsAs(hash: Hasher, s: string, a: Address) {
    && |s| == 42 && (s[..2] == "0x" || s[..2] == "0X")
    && (forall i :: 0 <= i < 40 ==> HasDigit(a, s, i))
    && (MixedCase(s[2..]) ==> forall i :: 0 <= i < 40 ==> ChecksumRule(hash, a, s, i))
  }

  ghost predicate HasDigit(a: Address, s: string, i: nat)
    requires |s| == 42 && i < 40
  {
    LowerChar(s[i + 2]) == "0123456789abcdef"[HexDigitAt(a, i)]
  }

  lemma DigitsAreHex(a: Address, s: string)
    requires |s| == 42
    ensures (forall i :: 0 <= i < 40 ==> HasDigit(a, s, i)) <==> ToLower(s[2..]) == HexEncode(a)
  {
    hide HexEncode, HexDigitAt, LowerChar;
    forall i | 0 <= i < 40 ensures HasDigit(a, s, i) <==> ToLower(s[2..])[i] == HexEncode(a)[i] {
      HexEncodeDigits(a, i);
    }
  }

  /** So a string parses to an address exactly when it spells the address's number, and in
      the standard's case where it mixes cases. */
  lemma ParsesExactly(hash: Hasher, s: string, a: Address)
    ensures Parse(hash, s) == Ok(a) <==> ReadsAs(hash, s, a)
  {
    hide ChecksumRule, HexDigitAt, HasDigit, Hex;
    if HasHexPrefix(s) && |s| == 42 {
      DigitsAreHex(a, s);
      var t := "0x" + s[2..];
      assert t[2..] == s[2..];
      SameRules(hash, a, s, t);
      if Parse(hash, s) == Ok(a) {
        EncodeDecode(s[2..], a);
        HexIsChecksummed(hash, a);
      }
      if ReadsAs(hash, s, a) {
        DecodeEncode(a);
        if MixedCase(s[2..]) { ChecksummedIsHex(hash, a, t); }
      }
    }
  }

  lemma SameRules(hash: Hasher, a: Address, s: string, t: string)
    requires |s| == |t| == 42 && s[2..] == t[2..]
    ensures (forall i :: 0 <= i < 40 ==> ChecksumRule(hash, a, s, i)) <==> (forall i :: 0 <= i < 40 ==> ChecksumRule(hash, a, t, i))
  {
    forall i | 0 <= i < 40 ensures ChecksumRule(hash, a, s, i) <==> ChecksumRule(hash, a, t, i) {
      assert s[i + 2] == s[2..][i] && t[i + 2] == t[2..][i];
    }
  }
}
