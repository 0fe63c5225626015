/** Bytes, the ASCII classifiers, the two substitution tables and the decimal
    renderings that helper.go works with. A Go string is modelled as the
    sequence of its bytes. */
module Chars {

  newtype byte = x: int | 0 <= x < 256

  /** A Go string, as its bytes. */
  type Bytes = seq<byte>

  /** The byte of an ASCII character. */
  function B(ch: char): byte
    requires ch as int < 256
  {
    ch as int as byte
  }

  /** The bytes of an ASCII string literal. */
  function Ascii(s: string): Bytes
    requires forall i :: 0 <= i < |s| ==> s[i] as int < 256
  {
    seq(|s|, i requires 0 <= i < |s| => s[i] as int as byte)
  }

  /** The vowel bitset of helper.go: bits 0, 4, 8, 14 and 20 stand for a, e, i, o, u. */
  const VowelsBitset: bv64 := 1065233
  const CharLowerA: byte := 0x61
  const CharUpperA: byte := 0x41

  predicate IsLetter(c: byte) {
    (B('a') <= c <= B('z')) || (B('A') <= c <= B('Z'))
  }

  predicate IsDigit(c: byte) {
    B('0') <= c <= B('9')
  }

  predicate AllDigits(s: Bytes) {
    forall i :: 0 <= i < |s| ==> IsDigit(s[i])
  }

  /** Go's `c - base` on bytes wraps modulo 256. */
  function ByteOffset(c: byte, base: byte): nat {
    (c as int - base as int) % 256
  }

  /** `VowelsBitset & (1 << n) != 0` on Go's 64-bit int: a shift by 64 or more gives 0. */
  predicate BitsetHas(n: nat) {
    n < 64 && VowelsBitset & ((1 as bv64) << n) != 0
  }

  predicate IsVowel(c: byte) {
    IsLetter(c) && (BitsetHas(ByteOffset(c, CharLowerA)) || BitsetHas(ByteOffset(c, CharUpperA)))
  }

  /** The bit test picks out exactly the ten ASCII vowels, and no digit or
      non-letter is a vowel. */
  lemma VowelsExactly(c: byte)
    ensures IsVowel(c) <==> c in Ascii("aeiouAEIOU")
    ensures IsVowel(c) <==> c as int in {97, 101, 105, 111, 117, 65, 69, 73, 79, 85}
    ensures IsVowel(c) ==> IsLetter(c) && !IsDigit(c)
  {
    assert Ascii("aeiouAEIOU") == [97, 101, 105, 111, 117, 65, 69, 73, 79, 85];
    VowelCode(c);
  }

  /** The vowel test as a plain comparison of byte values. */
  lemma VowelCode(c: byte)
    ensures IsVowel(c) <==> (c == 97 || c == 101 || c == 105 || c == 111 || c == 117 ||
                             c == 65 || c == 69 || c == 73 || c == 79 || c == 85)
  {
    if B('a') <= c <= B('z') {
      LowerVowelCode(c);
    } else if B('A') <= c <= B('Z') {
      UpperVowelCode(c);
    }
  }

  /** A lower-case letter is a vowel exactly when its bit from 'a' is set; its
      offset from 'A' is 32 or more, where no bit is set. */
  lemma LowerVowelCode(c: byte)
    requires B('a') <= c <= B('z')
    ensures IsVowel(c) <==> (c == 97 || c == 101 || c == 105 || c == 111 || c == 117)
  {
    var n := c as int - 97;
    assert ByteOffset(c, CharLowerA) == n;
    assert ByteOffset(c, CharUpperA) == n + 32;
    HighBitsClear(n + 32);
    LowerBits(n);
  }

  /** An upper-case letter is a vowel exactly when its bit from 'A' is set; its
      offset from 'a' wraps round to 224 or more, where no bit is set. */
  lemma UpperVowelCode(c: byte)
    requires B('A') <= c <= B('Z')
    ensures IsVowel(c) <==> (c == 65 || c == 69 || c == 73 || c == 79 || c == 85)
  {
    var n := c as int - 65;
    assert ByteOffset(c, CharUpperA) == n;
    assert ByteOffset(c, CharLowerA) == n + 224;
    HighBitsClear(n + 224);
    LowerBits(n);
  }

  /** The 52 ASCII letters, written out in four runs of thirteen. */
  function Letters(): Bytes {
    Ascii("abcdefghijklm") + Ascii("nopqrstuvwxyz") + Ascii("ABCDEFGHIJKLM") + Ascii("NOPQRSTUVWXYZ")
  }

  /** isLetter and isDigit accept exactly the 52 ASCII letters and the ten
      digits, and no byte is both. */
  lemma ClassifiersExactly(c: byte)
    ensures IsLetter(c) <==> c in Letters()
    ensures IsDigit(c) <==> c in Ascii("0123456789")
    ensures !(IsLetter(c) && IsDigit(c))
  {
    InRun("abcdefghijklm", 97, c);
    InRun("nopqrstuvwxyz", 110, c);
    InRun("ABCDEFGHIJKLM", 65, c);
    InRun("NOPQRSTUVWXYZ", 78, c);
    InRun("0123456789", 48, c);
  }

  /** The bytes of a run of consecutive characters starting at lo are exactly
      the bytes of its range. */
  lemma InRun(s: string, lo: nat, c: byte)
    requires lo + |s| <= 256
    requires forall i :: 0 <= i < |s| ==> s[i] as int == lo + i
    ensures c in Ascii(s) <==> lo <= c as int < lo + |s|
  {
    if lo <= c as int < lo + |s| {
      assert Ascii(s)[c as int - lo] == c;
    }
  }

  /** Which of the 26 letter bits are set. */
  lemma LowerBits(n: nat)
    requires n < 26
    ensures BitsetHas(n) <==> n in {0, 4, 8, 14, 20}
  {
    if n == 0 {} else if n == 1 {} else if n == 2 {} else if n == 3 {} else if n == 4 {}
    else if n == 5 {} else if n == 6 {} else if n == 7 {} else if n == 8 {} else if n == 9 {}
    else if n == 10 {} else if n == 11 {} else if n == 12 {} else if n == 13 {} else if n == 14 {}
    else if n == 15 {} else if n == 16 {} else if n == 17 {} else if n == 18 {} else if n == 19 {}
    else if n == 20 {} else if n == 21 {} else if n == 22 {} else if n == 23 {} else if n == 24 {}
    else {}
  }

  /** No bit from 32 upwards is set. */
  lemma HighBitsClear(n: nat)
    requires 32 <= n
    ensures !BitsetHas(n)
  {
  }

  /** vowelSwap: e and i, o and u trade places, a stays (in both cases); every
      other byte becomes '0'. */
  function VowelSwap(c: byte): byte {
    if c == B('a') then 97
    else if c == B('e') then B('i')
    else if c == B('i') then B('e')
    else if c == B('o') then B('u')
    else if c == B('u') then B('o')
    else if c == B('A') then 65
    else if c == B('E') then B('I')
    else if c == B('I') then B('E')
    else if c == B('O') then B('U')
    else if c == B('U') then B('O')
    else B('0')
  }

  /** vowelSwap sends vowels to vowels of the same case and undoes itself on
      them; a and A are its only fixed points; everything else becomes '0'. */
  lemma VowelSwapInvolution(c: byte)
    ensures IsVowel(c) ==> IsVowel(VowelSwap(c)) && VowelSwap(VowelSwap(c)) == c
    ensures IsVowel(c) ==> ((B('a') <= c <= B('z')) <==> (B('a') <= VowelSwap(c) <= B('z')))
    ensures IsVowel(c) ==> (VowelSwap(c) == c <==> c == B('a') || c == B('A'))
    ensures !IsVowel(c) ==> VowelSwap(c) == B('0')
  {
    VowelsExactly(c);
    VowelsExactly(VowelSwap(c));
  }

  /** alphabetSwap: a -> e, e <-> i, o <-> u, c <-> k, g <-> j, p <-> b,
      f <-> v; every other byte is kept. */
  function AlphabetSwap(c: byte): (r: byte)
    ensures IsLetter(c) <==> IsLetter(r)
    ensures (B('a') <= c <= B('z')) ==> (B('a') <= r <= B('z'))
  {
    if c == B('a') then B('e')
    else if c == B('e') then B('i')
    else if c == B('i') then B('e')
    else if c == B('o') then B('u')
    else if c == B('u') then B('o')
    else if c == B('c') then B('k')
    else if c == B('k') then B('c')
    else if c == B('g') then B('j')
    else if c == B('j') then B('g')
    else if c == B('p') then B('b')
    else if c == B('b') then B('p')
    else if c == B('f') then B('v')
    else if c == B('v') then B('f')
    else c
  }

  /** alphabetSwap is its own inverse everywhere except at 'a', which goes to
      'e' and from there to 'i': the table is deliberately asymmetric. */
  lemma AlphabetSwapInvolution(c: byte)
    ensures AlphabetSwap(AlphabetSwap(c)) == c <==> c != B('a')
    ensures AlphabetSwap(c) == c <==> !(c in Ascii("aeioucgjkpbfv"))
  {
    assert Ascii("aeioucgjkpbfv") == [97, 101, 105, 111, 117, 99, 103, 106, 107, 112, 98, 102, 118];
  }

  function DigitByte(d: nat): (r: byte)
    requires d < 10
    ensures IsDigit(r)
  {
    (d + 48) as byte
  }

  function DigitValue(c: byte): (d: nat)
    requires IsDigit(c)
    ensures d < 10 && DigitByte(d) == c
  {
    (c - 48) as nat
  }

  /** The decimal digits of k without leading zeros, as strconv.Itoa gives them. */
  function Decimal(k: nat): (r: Bytes)
    ensures |r| >= 1 && AllDigits(r)
    decreases k
  {
    if k < 10 then [DigitByte(k)] else Decimal(k / 10) + [DigitByte(k % 10)]
  }

  /** strconv.Atoi on a run of digits. */
  function ParseDecimal(s: Bytes): nat
    requires AllDigits(s)
  {
    if s == [] then 0 else ParseDecimal(s[..|s| - 1]) * 10 + DigitValue(s[|s| - 1])
  }

  /** Parsing the rendering of k gives back k. */
  lemma {:induction false} DecimalRoundTrip(k: nat)
    ensures ParseDecimal(Decimal(k)) == k
    decreases k
  {
    if k >= 10 {
      DecimalRoundTrip(k / 10);
      var d := Decimal(k);
      assert d[..|d| - 1] == Decimal(k / 10);
    }
  }

  /** One, two or three digits for numbers below 10, 100 and 1000, and no
      leading zero. */
  lemma {:induction false} DecimalWidth(k: nat)
    ensures k < 10 ==> |Decimal(k)| == 1
    ensures 10 <= k < 100 ==> |Decimal(k)| == 2
    ensures 100 <= k < 1000 ==> |Decimal(k)| == 3
    ensures k > 0 ==> Decimal(k)[0] != B('0')
    decreases k
  {
    if k >= 10 {
      DecimalWidth(k / 10);
    }
  }
}
